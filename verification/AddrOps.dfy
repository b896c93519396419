/**
 The operations of the address manager on its state: promotion to the tried table with the
 eviction it may cause, announcements, connection results, and the random sample; and
 what holds after any sequence of them.
 */
module AddrOps {
  import opened AddrState
  import opened Basics

  // ---- MakeTried, step by step

  /** The entry leaves all its new buckets. */
  ghost function Unbucketed(s: State, id: int): (r: State)
    requires id in s.info
  {
    s.(news := s.news - Slots(s.news, id), info := WithRefs(s.info, id, 0), nNew := s.nNew - 1)
  }

  lemma UnbucketKeeps(e: Env, s: State, id: int)
    requires Core(e, s, {}) && Counted(s, 0) && id in s.info && !s.info[id].fInTried
    ensures var r := Unbucketed(s, id); Core(e, r, {id}) && (TimesOk(s.info) ==> TimesOk(r.info)) && Counted(r, 1)
  {
    var r := Unbucketed(s, id);
    UnslotAllKeeps(e, s.info, s.news, id);
    var w := s.(news := r.news, info := r.info);
    assert w.info.Keys == s.info.Keys;
    SameShapeKeeps(e, s, w, 0);
    hide RandomOk;
    hide TriedOk;
    hide NewOk;
    hide AddrOk;
    hide TriedIds;
    hide NewIds;
  }

  /** The entry in a tried slot loses it and is, for now, in no table. */
  ghost function Evicted(s: State, slot: Slot): (r: State)
    requires slot in s.tried && s.tried[slot] in s.info
  {
    var id := s.tried[slot];
    s.(info := s.info[id := s.info[id].(fInTried := false)], tried := s.tried - {slot}, nTried := s.nTried - 1)
  }

  lemma EvictTables(e: Env, info: map<int, Entry>, addr: map<NetAddr, int>, tried: map<Slot, int>, news: map<Slot, int>, limbo: set<int>, slot: Slot)
    requires AddrOk(info, addr) && TriedOk(e, info, tried) && NewOk(e, info, news) && Live(info, limbo) && slot in tried
    ensures var id := tried[slot]; var info' := info[id := info[id].(fInTried := false)];
            AddrOk(info', addr) && TriedOk(e, info', tried - {slot}) && NewOk(e, info', news) && Live(info', limbo + {id})
  {
    hide TriedSlot;
    hide Position;
    hide Slots;
    var id := tried[slot];
    var info' := info[id := info[id].(fInTried := false)];
    assert AddrOk(info', addr);
    hide AddrOk;
    assert NewOk(e, info', news);
    hide NewOk;
    forall x | x in info' && info'[x].fInTried
      ensures TriedSlot(e, info'[x].service) in tried - {slot} && (tried - {slot})[TriedSlot(e, info'[x].service)] == x
    {
      assert x != id && tried[TriedSlot(e, info[x].service)] == x;
    }
    assert TriedOk(e, info', tried - {slot});
  }

  lemma FlipSets(info: map<int, Entry>, id: int)
    requires id in info
    ensures var info' := info[id := info[id].(fInTried := !info[id].fInTried)];
            if info[id].fInTried
            then |TriedIds(info')| == |TriedIds(info)| - 1 && |NewIds(info')| == |NewIds(info)| + 1
            else |TriedIds(info')| == |TriedIds(info)| + 1 && |NewIds(info')| == |NewIds(info)| - 1
  {
    var info' := info[id := info[id].(fInTried := !info[id].fInTried)];
    forall x | x != id ensures (x in TriedIds(info') <==> x in TriedIds(info)) && (x in NewIds(info') <==> x in NewIds(info)) {
      assert x in info' <==> x in info;
    }
    if info[id].fInTried {
      assert TriedIds(info') == TriedIds(info) - {id};
      assert NewIds(info') == NewIds(info) + {id};
    } else {
      assert TriedIds(info') == TriedIds(info) + {id};
      assert NewIds(info') == NewIds(info) - {id};
    }
  }

  lemma EvictKeeps(e: Env, s: State, limbo: set<int>, slot: Slot, short: int)
    requires Core(e, s, limbo) && Counted(s, short) && slot in s.tried
    ensures s.tried[slot] in s.info
    ensures var r := Evicted(s, slot); Core(e, r, limbo + {s.tried[slot]}) && (TimesOk(s.info) ==> TimesOk(r.info)) && Counted(r, short + 1)
    ensures var ev := s.info[s.tried[slot]]; ev.fInTried && ev.nRefCount == 0 && slot == TriedSlot(e, ev.service)
  {
    EvictTables(e, s.info, s.addr, s.tried, s.news, limbo, slot);
    FlipSets(s.info, s.tried[slot]);
    var r := Evicted(s, slot);
    assert r.info.Keys == s.info.Keys;
    hide RandomOk;
    hide NewOk;
    hide AddrOk;
    hide TriedSlot;
  }

  /** An entry in no table goes into one new slot, at the cost of whatever is there. */
  ghost function Inserted(e: Env, s: State, limbo: set<int>, id: int, slot: Slot): (r: State)
    requires Core(e, s, limbo) && id in s.info
  {
    var w := Cleared(e, s, limbo, slot);
    if id !in w.info then w else w.(news := w.news[slot := id], info := WithRefs(w.info, id, w.info[id].nRefCount + 1))
  }

  lemma InsertKeeps(e: Env, s: State, limbo: set<int>, id: int, slot: Slot, short: int)
    requires Core(e, s, limbo) && Counted(s, short)
    requires id in s.info && !s.info[id].fInTried && s.info[id].nRefCount < NEW_BUCKETS_PER_ADDRESS
    requires 0 <= slot.0 < NEW_BUCKET_COUNT && slot.1 == Position(e, true, slot.0, s.info[id].service)
    requires slot in s.news ==> s.news[slot] != id
    ensures var r, w := Inserted(e, s, limbo, id, slot), Cleared(e, s, limbo, slot);
            && Core(e, r, limbo - {id}) && (TimesOk(s.info) ==> TimesOk(r.info)) && Counted(r, short)
            && r.tried == s.tried && r.nTried == s.nTried && r.nNew == w.nNew && r.nIdCount == s.nIdCount
            && id in w.info && w.info[id] == s.info[id]
            && r.news == s.news[slot := id] && r.info == WithRefs(w.info, id, s.info[id].nRefCount + 1)
            && (if slot in s.news then s.news[slot] in s.info && !s.info[s.news[slot]].fInTried && OneLess(s.info, w.info, s.news[slot])
                else w == s)
  {
    hide RandomOk;
    hide NewOk;
    hide TriedOk;
    hide AddrOk;
    hide Counted;
    hide IdsOk;
    hide TimesOk;
    hide Live;
    hide Position;
    hide Cleared;
    hide SameShape;
    var w, r := Cleared(e, s, limbo, slot), Inserted(e, s, limbo, id, slot);
    ClearKeepsCore(e, s, limbo, slot, short);
    assert id in w.info && w.info[id] == s.info[id];
    RefsCount(e, w, limbo, id);
    SlotKeeps(e, w.info, w.news, slot, id);
    WithRefsShape(w.info, id, w.info[id].nRefCount + 1);
    SameShapeKeeps(e, w, r, short);
    LiveSlotted(w.info, limbo, id);
    Reslot(s.news, slot, id);
  }

  /** An entry that some table holds need not be in limbo. */
  lemma LimboHeld(e: Env, s: State, limbo: set<int>, id: int)
    requires Core(e, s, limbo) && (id in s.info ==> s.info[id].fInTried || s.info[id].nRefCount != 0)
    ensures Core(e, s, limbo - {id})
  {
    if id in s.info {
      RefsCount(e, s, limbo, id);
    }
    hide RandomOk;
    hide AddrOk;
    hide TriedOk;
    hide NewOk;
  }

  lemma RefsCount(e: Env, s: State, limbo: set<int>, id: int)
    requires Core(e, s, limbo) && id in s.info
    ensures s.info[id].nRefCount >= 0
  {
    hide RandomOk;
    hide AddrOk;
    hide TriedOk;
    hide Position;
  }

  lemma Reslot(news: map<Slot, int>, slot: Slot, id: int)
    ensures (news - {slot})[slot := id] == news[slot := id]
  {}

  lemma LiveSlotted(info: map<int, Entry>, limbo: set<int>, id: int)
    requires Live(info, limbo) && id in info && !info[id].fInTried && 0 <= info[id].nRefCount < NEW_BUCKETS_PER_ADDRESS
    ensures Live(WithRefs(info, id, info[id].nRefCount + 1), limbo - {id})
  {}

  /** The entry takes its tried slot, which is free. */
  ghost function Promoted(e: Env, s: State, id: int): (r: State)
    requires id in s.info
  {
    s.(tried := s.tried[TriedSlot(e, s.info[id].service) := id], nTried := s.nTried + 1,
       info := s.info[id := s.info[id].(fInTried := true)])
  }

  lemma PromoteTables(e: Env, info: map<int, Entry>, tried: map<Slot, int>, news: map<Slot, int>, limbo: set<int>, id: int)
    requires TriedOk(e, info, tried) && NewOk(e, info, news) && Live(info, limbo)
    requires id in info && !info[id].fInTried && info[id].nRefCount == 0 && TriedSlot(e, info[id].service) !in tried
    ensures var info' := info[id := info[id].(fInTried := true)]; var tried' := tried[TriedSlot(e, info[id].service) := id];
            TriedOk(e, info', tried') && NewOk(e, info', news) && Live(info', limbo - {id})
  {
    hide TriedSlot;
    hide Position;
    hide Slots;
    var info' := info[id := info[id].(fInTried := true)];
    var tried' := tried[TriedSlot(e, info[id].service) := id];
    assert NewOk(e, info', news);
    hide NewOk;
    assert TriedOk(e, info', tried');
  }

  lemma PromoteKeeps(e: Env, s: State, id: int)
    requires Core(e, s, {id}) && Counted(s, 1)
    requires id in s.info && !s.info[id].fInTried && s.info[id].nRefCount == 0
    requires TriedSlot(e, s.info[id].service) !in s.tried
    ensures var r := Promoted(e, s, id); Core(e, r, {}) && (TimesOk(s.info) && s.info[id].nLastSuccess > 0 ==> TimesOk(r.info)) && Counted(r, 0)
  {
    var r := Promoted(e, s, id);
    PromoteTables(e, s.info, s.tried, s.news, {id}, id);
    assert AddrOk(r.info, r.addr);
    assert {id} - {id} == {};
    FlipSets(s.info, id);
    assert r.info.Keys == s.info.Keys;
    hide RandomOk;
    hide NewOk;
    hide TriedOk;
    hide AddrOk;
    hide TriedSlot;
  }

  /** The evicted entry of a tried slot goes back to the new slot of its source. */
  ghost function MadeRoom(e: Env, s: State, id: int, slot: Slot): (r: State)
    requires Core(e, s, {id}) && Counted(s, 1)
  {
    if slot !in s.tried then s
    else
      EvictKeeps(e, s, {id}, slot, 1);
      var ev, w := s.tried[slot], Evicted(s, slot);
      var r := Inserted(e, w, {id, ev}, ev, NewSlot(e, w.info[ev].service, w.info[ev].source));
      r.(nNew := r.nNew + 1)
  }

  ghost function MadeTried(e: Env, s: State, id: int): (r: State)
    requires Core(e, s, {}) && Counted(s, 0) && id in s.info && !s.info[id].fInTried
  {
    UnbucketKeeps(e, s, id);
    var w := MadeRoom(e, Unbucketed(s, id), id, TriedSlot(e, s.info[id].service));
    if id !in w.info then w else Promoted(e, w, id)
  }

  /** A new entry at the slot that its own source gives it. */
  predicate HasOwnSlot(e: Env, s: State, id: int) {
    id in s.info && var slot := NewSlot(e, s.info[id].service, s.info[id].source); slot in s.news && s.news[slot] == id
  }

  /** What making room does: one tried entry at most moves back, to a single new slot, and whatever had only
      that slot is forgotten. */
  ghost predicate RoomMade(e: Env, s: State, r: State, slot: Slot) {
    && r.nIdCount == s.nIdCount && slot !in r.tried && r.tried == s.tried - {slot}
    && (slot !in s.tried ==> r.info == s.info)
    && (slot in s.tried ==>
          var ev := s.tried[slot];
          && ev in s.info && ev in r.info && r.info[ev] == s.info[ev].(fInTried := false, nRefCount := 1)
          && HasOwnSlot(e, r, ev)
          && (forall x :: x in r.info && x != ev ==> x in s.info && r.info[x] == s.info[x].(nRefCount := r.info[x].nRefCount))
          && (forall x :: x in s.info && (s.info[x].fInTried || s.info[x].nRefCount != 1) ==> x in r.info)
          && (forall x :: x in s.info && s.info[x].nRefCount == 0 && x != ev ==> x in r.info && r.info[x] == s.info[x])
          && (forall x, y :: x in s.info && x !in r.info && y in s.info && y !in r.info ==> x == y))
  }

  lemma RoomKeeps(e: Env, s: State, id: int, slot: Slot)
    requires Core(e, s, {id}) && Counted(s, 1)
    requires id in s.info && !s.info[id].fInTried && s.info[id].nRefCount == 0
    ensures var r := MadeRoom(e, s, id, slot);
            && Core(e, r, {id}) && (TimesOk(s.info) ==> TimesOk(r.info)) && Counted(r, 1) && RoomMade(e, s, r, slot)
  {
    hide RandomOk;
    hide NewOk;
    hide TriedOk;
    hide AddrOk;
    hide Counted;
    hide IdsOk;
    hide TimesOk;
    hide Live;
    hide Inserted;
    hide Cleared;
    if slot in s.tried {
      EvictKeeps(e, s, {id}, slot, 1);
      var ev, w := s.tried[slot], Evicted(s, slot);
      var us := NewSlot(e, w.info[ev].service, w.info[ev].source);
      assert us.0 < NEW_BUCKET_COUNT;
      hide NewBucket;
      hide Position;
      hide TriedSlot;
      if us in w.news {
        OwnerIsNew(e, w, {id, ev}, us);
      }
      assert {id} + {ev} == {id, ev};
      assert {id, ev} - {ev} == {id};
      InsertKeeps(e, w, {id, ev}, ev, us, 2);
      var c, r := Cleared(e, w, {id, ev}, us), MadeRoom(e, s, id, slot);
      RoomRelation(s.info, w.info, c.info, r.info, ev, if us in w.news then w.news[us] else ev);
      OneMoreNew(Inserted(e, w, {id, ev}, ev, us));
    } else {
      assert s.tried - {slot} == s.tried;
    }
  }

  /** Making room leaves the entry it is made for alone. */
  lemma RoomSparesPromoted(e: Env, s: State, id: int, slot: Slot)
    requires Core(e, s, {id}) && Counted(s, 1)
    requires id in s.info && !s.info[id].fInTried && s.info[id].nRefCount == 0
    ensures var r := MadeRoom(e, s, id, slot); id in r.info && r.info[id] == s.info[id]
  {
    hide Core;
    hide TimesOk;
    hide Counted;
    hide MadeRoom;
    RoomKeeps(e, s, id, slot);
    if slot in s.tried {
      EvictKeeps(e, s, {id}, slot, 1);
    }
  }

  lemma OneMoreNew(s: State)
    requires Counted(s, 2) && IdsOk(s)
    ensures Counted(s.(nNew := s.nNew + 1), 1) && IdsOk(s.(nNew := s.nNew + 1))
  {}

  lemma RoomRelation(a: map<int, Entry>, w: map<int, Entry>, c: map<int, Entry>, r: map<int, Entry>, ev: int, owner: int)
    requires ev in a && a[ev].fInTried && a[ev].nRefCount == 0 && w == a[ev := a[ev].(fInTried := false)]
    requires if owner == ev then c == w else owner in w && !w[owner].fInTried && w[owner].nRefCount >= 1 && OneLess(w, c, owner)
    requires ev in c && c[ev] == w[ev] && r == WithRefs(c, ev, 1)
    ensures r[ev] == a[ev].(fInTried := false, nRefCount := 1)
    ensures forall x :: x in r && x != ev ==> x in a && r[x] == a[x].(nRefCount := r[x].nRefCount)
    ensures forall x :: x in a && (a[x].fInTried || a[x].nRefCount != 1) ==> x in r
    ensures forall x :: x in a && a[x].nRefCount == 0 && x != ev ==> x in r && r[x] == a[x]
    ensures forall x, y :: x in a && x !in r && y in a && y !in r ==> x == y
  {}

  predicate Demoted(s: State, r: State, x: int) {
    x in s.info && x in r.info && s.info[x].fInTried && !r.info[x].fInTried
  }

  /** The effect of a promotion, entry by entry. */
  ghost predicate Promotes(e: Env, s: State, r: State, id: int) {
    // the entry itself
    && id in s.info && id in r.info && r.info[id] == s.info[id].(fInTried := true, nRefCount := 0)
    && TriedSlot(e, s.info[id].service) in r.tried && r.tried[TriedSlot(e, s.info[id].service)] == id
    // nothing is invented, and what is kept keeps its data
    && (forall x :: x in r.info ==>
          x in s.info && r.info[x] == s.info[x].(fInTried := r.info[x].fInTried, nRefCount := r.info[x].nRefCount))
    // no tried entry is forgotten, and at most one stops being tried: it is new again, in one slot
    && (forall x :: x in s.info && s.info[x].fInTried ==> x in r.info)
    && (forall x, y :: Demoted(s, r, x) && Demoted(s, r, y) ==> x == y)
    && (forall x :: Demoted(s, r, x) ==> r.info[x].nRefCount == 1 && HasOwnSlot(e, r, x))
    // at most one entry is forgotten, a new one with a single reference
    && (forall x, y :: x in s.info && x !in r.info && y in s.info && y !in r.info ==> x == y)
    && (forall x :: x in s.info && x !in r.info ==> !s.info[x].fInTried && s.info[x].nRefCount == 1)
  }

  /** Promotion keeps the manager consistent, ends with the entry in its tried slot and disturbs at most two others. */
  lemma MakeTriedKeeps(e: Env, s: State, id: int)
    requires Core(e, s, {}) && Counted(s, 0) && id in s.info && !s.info[id].fInTried
    ensures var r := MadeTried(e, s, id); Core(e, r, {}) && (TimesOk(s.info) && s.info[id].nLastSuccess > 0 ==> TimesOk(r.info)) && Counted(r, 0) && Promotes(e, s, r, id)
  {
    hide RandomOk;
    hide NewOk;
    hide TriedOk;
    hide AddrOk;
    hide Counted;
    hide IdsOk;
    hide TimesOk;
    hide Live;
    hide TriedSlot;
    hide NewSlot;
    hide MadeRoom;
    UnbucketKeeps(e, s, id);
    var u, slot := Unbucketed(s, id), TriedSlot(e, s.info[id].service);
    RoomKeeps(e, u, id, slot);
    var w := MadeRoom(e, u, id, slot);
    RoomSparesPromoted(e, u, id, slot);
    PromoteKeeps(e, w, id);
    if slot in u.tried {
      PromotesAfterRoom(s.info, w.info, id, u.tried[slot]);
    }
  }

  lemma PromotesAfterRoom(a: map<int, Entry>, w: map<int, Entry>, id: int, ev: int)
    requires id in a && !a[id].fInTried && id in w && w[id] == a[id].(nRefCount := 0)
    requires ev in a && ev != id && ev in w && w[ev] == a[ev].(fInTried := false, nRefCount := 1)
    requires forall x :: x in w && x != ev && x != id ==> x in a && w[x] == a[x].(nRefCount := w[x].nRefCount)
    requires forall x :: x in a && x != id && (a[x].fInTried || a[x].nRefCount != 1) ==> x in w
    ensures var r := w[id := w[id].(fInTried := true)];
            && (forall x :: x in r ==> x in a && r[x] == a[x].(fInTried := r[x].fInTried, nRefCount := r[x].nRefCount))
            && (forall x :: x in a && a[x].fInTried ==> x in r)
            && (forall x :: x in r && x in a && a[x].fInTried && !r[x].fInTried ==> x == ev)
            && (forall x :: x in a && x !in r ==> !a[x].fInTried && a[x].nRefCount == 1)
  {}

  // ---- the public operations

  /** An address known with exactly this service. */
  predicate Knows(s: State, svc: Service) {
    svc.addr in s.addr && s.addr[svc.addr] in s.info && s.info[s.addr[svc.addr]].service == svc
  }

  ghost function Touched(s: State, id: int, n: Entry): (r: State) {
    s.(info := s.info[id := n])
  }

  /** Data that no index depends on changes freely, as long as times stay sensible. */
  lemma TouchKeeps(e: Env, s: State, id: int, n: Entry)
    requires Consistent(e, s) && id in s.info
    requires n == s.info[id].(nServices := n.nServices, nTime := n.nTime, nLastSuccess := n.nLastSuccess, nLastTry := n.nLastTry,
                              nAttempts := n.nAttempts)
    ensures Core(e, Touched(s, id, n), {}) && Counted(Touched(s, id, n), 0)
    ensures n.nLastTry >= 0 && n.nLastSuccess >= 0 && (n.fInTried ==> n.nLastSuccess > 0) ==> Consistent(e, Touched(s, id, n))
  {
    hide RandomOk;
    hide NewOk;
    hide TriedOk;
    hide AddrOk;
    hide Counted;
    hide IdsOk;
    var r := Touched(s, id, n);
    TouchTables(e, s.info, s.news, id, n);
    TouchShape(s.info, id, n);
    hide SameShape;
    SameShapeKeeps(e, s, r, 0);
  }

  lemma TouchShape(info: map<int, Entry>, id: int, n: Entry)
    requires id in info && n.service == info[id].service && n.fInTried == info[id].fInTried
    ensures SameShape(info, info[id := n])
  {
    assert info[id := n].Keys == info.Keys;
  }

  lemma TouchTables(e: Env, info: map<int, Entry>, news: map<Slot, int>, id: int, n: Entry)
    requires NewOk(e, info, news) && id in info && n.service == info[id].service && n.nRefCount == info[id].nRefCount
    ensures NewOk(e, info[id := n], news)
  {
    hide Position;
    hide Slots;
  }

  /** `Good_`. */
  ghost function MarkedGood(e: Env, s: State, svc: Service, nTime: int): (r: State)
    requires Consistent(e, s)
  {
    if !Knows(s, svc) then s
    else
      var id := s.addr[svc.addr];
      var n := s.info[id].(nLastSuccess := nTime, nLastTry := nTime, nAttempts := 0);
      TouchKeeps(e, s, id, n);
      if n.fInTried then Touched(s, id, n) else MadeTried(e, Touched(s, id, n), id)
  }

  /** A known service ends up in its tried slot; every other tried address stays known, at most one of them
      going back to new; and at most one address is forgotten, a new one with a single reference. Only a time that makes
      no sense, stored like any other, breaks consistency. */
  lemma GoodKeeps(e: Env, s: State, svc: Service, nTime: int)
    requires Consistent(e, s)
    ensures var r := MarkedGood(e, s, svc, nTime);
            && Core(e, r, {}) && Counted(r, 0)
            && (Consistent(e, r) <==> nTime > 0 || !Knows(s, svc))
            && (!Knows(s, svc) ==> r == s)
            && (Knows(s, svc) ==>
                  var id := s.addr[svc.addr];
                  && id in r.info && r.info[id].fInTried && r.info[id].service == svc && r.info[id].nLastSuccess == nTime
                  && TriedSlot(e, svc) in r.tried && r.tried[TriedSlot(e, svc)] == id
                  && (s.info[id].fInTried ==> r.info.Keys == s.info.Keys)
                  && (forall x :: x in s.info && s.info[x].fInTried ==> x in r.info && r.info[x].service == s.info[x].service)
                  && (forall x, y :: Demoted(s, r, x) && Demoted(s, r, y) ==> x == y)
                  && (forall x, y :: x in s.info && x !in r.info && y in s.info && y !in r.info ==> x == y)
                  && (forall x :: x in s.info && x !in r.info ==> !s.info[x].fInTried && s.info[x].nRefCount == 1))
  {
    hide Core;
    hide TimesOk;
    hide Counted;
    hide MadeTried;
    hide TriedSlot;
    hide Promotes;
    if Knows(s, svc) {
      var id := s.addr[svc.addr];
      var n := s.info[id].(nLastSuccess := nTime, nLastTry := nTime, nAttempts := 0);
      TouchKeeps(e, s, id, n);
      var w := Touched(s, id, n);
      assert w.info.Keys == s.info.Keys;
      if n.fInTried {
        TriedWhere(e, w, id);
      } else {
        MakeTriedKeeps(e, w, id);
        PromotesTouched(e, s, id, n, MadeTried(e, w, id));
      }
      var r := MarkedGood(e, s, svc, nTime);
      if nTime <= 0 {
        NeverSucceeded(r.info, id);
      }
    }
  }

  lemma NeverSucceeded(info: map<int, Entry>, id: int)
    requires id in info && info[id].fInTried && info[id].nLastSuccess <= 0
    ensures !TimesOk(info)
  {}

  lemma PromotesTouched(e: Env, s: State, id: int, n: Entry, r: State)
    requires id in s.info && !s.info[id].fInTried && n.service == s.info[id].service && !n.fInTried && n.nRefCount == s.info[id].nRefCount
    requires Promotes(e, Touched(s, id, n), r, id)
    ensures id in r.info && r.info[id] == n.(fInTried := true, nRefCount := 0)
    ensures TriedSlot(e, n.service) in r.tried && r.tried[TriedSlot(e, n.service)] == id
    ensures forall x :: x in s.info && s.info[x].fInTried ==> x in r.info && r.info[x].service == s.info[x].service
    ensures forall x, y :: Demoted(s, r, x) && Demoted(s, r, y) ==> x == y
    ensures forall x, y :: x in s.info && x !in r.info && y in s.info && y !in r.info ==> x == y
    ensures forall x :: x in s.info && x !in r.info ==> !s.info[x].fInTried && s.info[x].nRefCount == 1
  {
    hide TriedSlot;
    var w := Touched(s, id, n);
    assert w.info.Keys == s.info.Keys;
    forall x | x in s.info ensures x in w.info && (x != id ==> w.info[x] == s.info[x]) && (Demoted(s, r, x) ==> Demoted(w, r, x)) {
    }
  }

  lemma TriedWhere(e: Env, s: State, id: int)
    requires Core(e, s, {}) && id in s.info && s.info[id].fInTried
    ensures TriedSlot(e, s.info[id].service) in s.tried && s.tried[TriedSlot(e, s.info[id].service)] == id
  {
    hide TriedSlot;
    hide RandomOk;
    hide NewOk;
  }

  /** The bucket search of `Good_` cannot fail: a new entry is in some bucket. */
  lemma NewIsSomewhere(e: Env, s: State, id: int)
    requires Core(e, s, {}) && id in s.info && !s.info[id].fInTried
    ensures exists b :: 0 <= b < NEW_BUCKET_COUNT && Holds(e, s, id, b)
  {
    var slot :| slot in Slots(s.news, id);
    assert Holds(e, s, id, slot.0);
  }

  predicate Holds(e: Env, s: State, id: int, b: int)
    requires id in s.info
  {
    (b, Position(e, true, b, s.info[id].service)) in s.news && s.news[(b, Position(e, true, b, s.info[id].service))] == id
  }

  /** `IsTerrible`. */
  predicate IsTerrible(n: Entry, now: int) {
    if n.nLastTry != 0 && n.nLastTry >= now - 60 then false
    else
      || n.nTime > now + 10 * 60
      || n.nTime == 0 || now - n.nTime > HORIZON_DAYS * 24 * 60 * 60
      || (n.nLastSuccess == 0 && n.nAttempts >= RETRIES)
      || (now - n.nLastSuccess > MIN_FAIL_DAYS * 24 * 60 * 60 && n.nAttempts >= MAX_FAILURES)
  }

  function NonNegative(t: int): (r: int) {
    if t < 0 then 0 else t
  }

  /** A known entry after the news of an announcement: its time moved on if stale, its services joined. */
  function Refreshed(n: Entry, a: Address, penalty: int, now: int): (r: Entry) {
    var interval := if now - a.nTime < 24 * 60 * 60 then 60 * 60 else 24 * 60 * 60;
    var t := if a.nTime != 0 && (n.nTime == 0 || n.nTime < a.nTime - interval - penalty) then NonNegative(a.nTime - penalty) else n.nTime;
    n.(nTime := t, nServices := n.nServices + a.nServices)
  }

  /** Whether a refreshed entry is a candidate for one more new slot. `lucky`: the draw with odds one in two to
      the number of references. */
  predicate MayMultiply(n: Entry, a: Address, lucky: bool) {
    a.nTime != 0 && !(n.nTime != 0 && a.nTime <= n.nTime) && !n.fInTried && n.nRefCount != NEW_BUCKETS_PER_ADDRESS
    && (n.nRefCount <= 0 || lucky)
  }

  /** The last part of `Add_`: entry `id` tries to get a new slot. */
  ghost function Slotted(e: Env, s: State, limbo: set<int>, id: int, slot: Slot, now: int): (r: State)
    requires Core(e, s, limbo) && id in s.info
  {
    if slot in s.news && s.news[slot] == id then s
    else if slot !in s.news || (s.news[slot] in s.info
                                && (IsTerrible(s.info[s.news[slot]], now)
                                    || (s.info[s.news[slot]].nRefCount > 1 && s.info[id].nRefCount == 0)))
    then Inserted(e, s, limbo, id, slot)
    else if s.info[id].nRefCount == 0 then Deleted(s, id)
    else s
  }

  lemma SlottingKeeps(e: Env, s: State, limbo: set<int>, id: int, slot: Slot, now: int)
    requires Core(e, s, limbo) && TimesOk(s.info) && Counted(s, 0) && limbo <= {id}
    requires id in s.info && !s.info[id].fInTried && s.info[id].nRefCount < NEW_BUCKETS_PER_ADDRESS
    requires id in limbo ==> s.info[id].nRefCount == 0
    requires 0 <= slot.0 < NEW_BUCKET_COUNT && slot.1 == Position(e, true, slot.0, s.info[id].service)
    ensures var r := Slotted(e, s, limbo, id, slot, now); Core(e, r, {}) && TimesOk(r.info) && Counted(r, 0)
    ensures var r := Slotted(e, s, limbo, id, slot, now);
            forall x :: x in s.info && s.info[x].fInTried ==> x in r.info && r.info[x] == s.info[x]
  {
    hide RandomOk;
    hide NewOk;
    hide TriedOk;
    hide AddrOk;
    hide Counted;
    hide IdsOk;
    hide Position;
    hide Inserted;
    hide Deleted;
    hide Cleared;
    assert limbo - {id} == {};
    if slot in s.news {
      OwnerIsNew(e, s, limbo, slot);
    }
    if slot in s.news && s.news[slot] == id {
      assert limbo == {};
    } else {
      InsertKeeps(e, s, limbo, id, slot, 0);
      if s.info[id].nRefCount == 0 {
        DeleteKeepsCore(e, s, limbo, id, 0);
        DeletedFields(s, id);
      } else {
        assert limbo == {};
      }
    }
  }

  /** `Add_`; unroutable addresses do nothing. */
  ghost function Added(e: Env, s: State, a: Address, routable: bool, source: NetAddr, penalty: int, now: int, lucky: bool): (r: State)
    requires Consistent(e, s)
  {
    if !routable then s
    else if a.service.addr in s.addr then
      var id := s.addr[a.service.addr];
      var n := Refreshed(s.info[id], a, penalty, now);
      TouchKeeps(e, s, id, n);
      var w := Touched(s, id, n);
      if !MayMultiply(n, a, lucky) then w else Slotted(e, w, {}, id, NewSlot(e, n.service, source), now)
    else
      var id, w := s.nIdCount, Created(s, a, source, NonNegative(a.nTime - penalty));
      CreateKeepsCore(e, s, a, source, NonNegative(a.nTime - penalty));
      Slotted(e, w, {id}, id, NewSlot(e, a.service, source), now)
  }

  /** An announcement keeps the manager consistent and touches no tried entry's standing. */
  lemma AddKeeps(e: Env, s: State, a: Address, routable: bool, source: NetAddr, penalty: int, now: int, lucky: bool)
    requires Consistent(e, s)
    ensures var r := Added(e, s, a, routable, source, penalty, now, lucky);
            && Consistent(e, r)
            && (forall x :: x in s.info && s.info[x].fInTried ==>
                  x in r.info && r.info[x] == s.info[x].(nTime := r.info[x].nTime, nServices := r.info[x].nServices))
  {
    hide RandomOk;
    hide NewOk;
    hide TriedOk;
    hide Counted;
    hide Slotted;
    hide Position;
    hide NewBucket;
    if routable && a.service.addr in s.addr {
      var id := s.addr[a.service.addr];
      var n := Refreshed(s.info[id], a, penalty, now);
      TouchKeeps(e, s, id, n);
      hide AddrOk;
      if MayMultiply(n, a, lucky) {
        SlottingKeeps(e, Touched(s, id, n), {}, id, NewSlot(e, n.service, source), now);
      }
    } else if routable {
      CreateKeepsCore(e, s, a, source, NonNegative(a.nTime - penalty));
      hide AddrOk;
      var w := Created(s, a, source, NonNegative(a.nTime - penalty));
      SlottingKeeps(e, w, {s.nIdCount}, s.nIdCount, NewSlot(e, a.service, source), now);
    }
  }

  /** The new slot an announcement asks for is free, or its entry gives way to a newcomer. */
  ghost predicate Yields(s: State, slot: Slot, now: int) {
    slot in s.news ==> s.news[slot] in s.info && (IsTerrible(s.info[s.news[slot]], now) || s.info[s.news[slot]].nRefCount > 1)
  }

  /** An unknown address is kept exactly when its slot yields, and then it has the slot. At most one entry is forgotten
      for it: a terrible one that had no slot but this. */
  lemma NewcomerStays(e: Env, s: State, a: Address, source: NetAddr, penalty: int, now: int, lucky: bool)
    requires Consistent(e, s) && a.service.addr !in s.addr
    ensures var r, slot := Added(e, s, a, true, source, penalty, now, lucky), NewSlot(e, a.service, source);
            && (a.service.addr in r.addr <==> Yields(s, slot, now))
            && (Yields(s, slot, now) ==>
                  slot in r.news && r.news[slot] in r.info && r.info[r.news[slot]].service == a.service
                  && r.info[r.news[slot]].nRefCount == 1)
            && (!Yields(s, slot, now) ==> r.info == s.info && r.news == s.news)
            && (forall x :: x in s.info && x !in r.info ==>
                  slot in s.news && x == s.news[slot] && IsTerrible(s.info[x], now) && s.info[x].nRefCount == 1)
  {
    hide RandomOk;
    hide NewOk;
    hide TriedOk;
    hide AddrOk;
    hide Counted;
    hide TimesOk;
    hide Live;
    hide IsTerrible;
    hide Position;
    hide NewBucket;
    hide Inserted;
    hide Deleted;
    hide Cleared;
    var r, slot := Added(e, s, a, true, source, penalty, now, lucky), NewSlot(e, a.service, source);
    var id, t := s.nIdCount, NonNegative(a.nTime - penalty);
    var w := Created(s, a, source, t);
    CreateKeepsCore(e, s, a, source, t);
    if slot in s.news {
      OwnerIsNew(e, s, {}, slot);
    }
    InsertKeeps(e, w, {id}, id, slot, 0);
    if Yields(s, slot, now) {
      InfoHasAddr(r.info, r.addr, id);
    } else {
      DeletedFields(w, id);
      assert w.info - {id} == s.info;
    }
  }

  /** News of a known address only moves its time forward and only adds services. */
  lemma RefreshAdvances(n: Entry, a: Address, penalty: int, now: int)
    requires n.nTime >= 0
    ensures var r := Refreshed(n, a, penalty, now);
            && r == n.(nTime := r.nTime, nServices := n.nServices + a.nServices)
            && n.nTime <= r.nTime && (r.nTime != n.nTime ==> r.nTime == NonNegative(a.nTime - penalty))
  {}

  /** A known address may get one slot more, never loses one and is never forgotten: it gets the slot exactly if it is a
      candidate for it, has not got it, and the slot is free or its entry is terrible. */
  lemma KnownSpreads(e: Env, s: State, a: Address, source: NetAddr, penalty: int, now: int, lucky: bool)
    requires Consistent(e, s) && a.service.addr in s.addr
    ensures s.addr[a.service.addr] in s.info
    ensures var r, id := Added(e, s, a, true, source, penalty, now, lucky), s.addr[a.service.addr];
            var n := Refreshed(s.info[id], a, penalty, now);
            var slot := NewSlot(e, n.service, source);
            var gets := MayMultiply(n, a, lucky) && !(slot in s.news && s.news[slot] == id)
                        && (slot in s.news ==> s.news[slot] in s.info && IsTerrible(s.info[s.news[slot]], now));
            && id in r.info && r.info[id] == n.(nRefCount := n.nRefCount + if gets then 1 else 0)
            && (if gets then r.news == s.news[slot := id] else r == Touched(s, id, n))
  {
    hide RandomOk;
    hide TriedOk;
    hide Counted;
    hide IsTerrible;
    hide Position;
    hide NewBucket;
    hide Inserted;
    hide Deleted;
    hide Cleared;
    var id := s.addr[a.service.addr];
    var n := Refreshed(s.info[id], a, penalty, now);
    hide AddrOk;
    var w, slot := Touched(s, id, n), NewSlot(e, n.service, source);
    TouchKeeps(e, s, id, n);
    RefsCount(e, s, {}, id);
    assert !n.fInTried ==> 1 <= n.nRefCount <= NEW_BUCKETS_PER_ADDRESS;
    hide NewOk;
    hide Live;
    if slot in s.news {
      OwnerIsNew(e, s, {}, slot);
    }
    if MayMultiply(n, a, lucky) && !(slot in s.news && s.news[slot] == id) {
      InsertKeeps(e, w, {}, id, slot, 0);
    }
  }

  lemma InfoHasAddr(info: map<int, Entry>, addr: map<NetAddr, int>, id: int)
    requires AddrOk(info, addr) && id in info
    ensures info[id].service.addr in addr
  {}

  ghost function Attempted(s: State, svc: Service, nTime: int): (r: State) {
    if !Knows(s, svc) then s
    else
      var id := s.addr[svc.addr];
      Touched(s, id, s.info[id].(nLastTry := nTime, nAttempts := s.info[id].nAttempts + 1))
  }

  ghost function ConnectedTo(s: State, svc: Service, nTime: int): (r: State) {
    if !Knows(s, svc) then s
    else
      var id := s.addr[svc.addr];
      if nTime - s.info[id].nTime > 20 * 60 then Touched(s, id, s.info[id].(nTime := nTime)) else s
  }

  lemma ShuffledRandom(s: State, r: State)
    requires Shuffled(s, r)
    ensures RandomOk(r.random, r.pos) && r.info == s.info
  {}

  lemma Unshuffled(e: Env, s: State, now: int)
    requires Consistent(e, s)
    ensures Shuffled(s, s) && Sample(s.info, s.random[..0], now) == []
  {}

  lemma SwapShuffles(s: State, w: State, p1: int, p2: int)
    requires Shuffled(s, w) && 0 <= p1 <= p2 < |w.random|
    ensures var r := SwapRandom(w, p1, p2); Shuffled(s, r) && |r.random| == |w.random| && r.random[..p1] == w.random[..p1]
  {
    hide RandomOk;
  }

  /** The same state with the ids in another random order. */
  ghost predicate Shuffled(s: State, r: State) {
    r == s.(random := r.random, pos := r.pos) && RandomOk(r.random, r.pos) && r.pos.Keys == s.pos.Keys
  }

  /** `GetAddr_` returns at most 23 per cent of the addresses, and at most 2500. */
  function SampleSize(n: nat): (r: nat) {
    if 23 * n / 100 > 2500 then 2500 else 23 * n / 100
  }

  /** The addresses of the entries worth announcing, in the order of `ids`. */
  function Sample(info: map<int, Entry>, ids: seq<int>, now: int): (r: seq<Address>) {
    if ids == [] then []
    else
      var rest, id := Sample(info, ids[..|ids| - 1], now), ids[|ids| - 1];
      if id in info && !IsTerrible(info[id], now) then rest + [Address(info[id].service, info[id].nServices, info[id].nTime)]
      else rest
  }

  lemma SampleSnoc(info: map<int, Entry>, random: seq<int>, n: nat, now: int)
    requires n < |random|
    ensures var rest := Sample(info, random[..n], now);
            Sample(info, random[..n + 1], now) ==
              if random[n] in info && !IsTerrible(info[random[n]], now)
              then rest + [Address(info[random[n]].service, info[random[n]].nServices, info[random[n]].nTime)] else rest
  {
    hide IsTerrible;
    assert random[..n + 1][..n] == random[..n];
  }

  /** `a` is what the entry at place `p` of the random order announces. */
  predicate Shows(s: State, p: int, now: int, a: Address) {
    0 <= p < |s.random| && s.random[p] in s.info && !IsTerrible(s.info[s.random[p]], now)
    && var n := s.info[s.random[p]]; a == Address(n.service, n.nServices, n.nTime)
  }

  /** Every address of the sample is shown by one of the first `n` entries, */
  ghost predicate Sound(s: State, n: nat, now: int, r: seq<Address>) {
    forall i :: 0 <= i < |r| ==> IsShown(s, n, now, r[i])
  }

  ghost predicate IsShown(s: State, n: nat, now: int, a: Address) {
    exists p :: 0 <= p < n && Shows(s, p, now, a)
  }

  /** every good entry among them is in it, */
  ghost predicate Complete(s: State, n: nat, now: int, r: seq<Address>)
    requires n <= |s.random|
  {
    forall p :: 0 <= p < n && s.random[p] in s.info && !IsTerrible(s.info[s.random[p]], now) ==>
      exists i :: 0 <= i < |r| && Shows(s, p, now, r[i])
  }

  /** and no address is in it twice. */
  ghost predicate Distinct(r: seq<Address>) {
    forall i, j :: 0 <= i < j < |r| ==> r[i].service.addr != r[j].service.addr
  }

  /** A sample of a consistent manager names known, good addresses, no address twice, and misses no good entry among
      the ids it is drawn from. */
  lemma {:induction false} SampleIsGood(e: Env, s: State, n: nat, now: int)
    requires Consistent(e, s) && n <= |s.random|
    ensures var r := Sample(s.info, s.random[..n], now); Sound(s, n, now, r) && Complete(s, n, now, r) && Distinct(r)
  {
    hide Consistent;
    hide Extends;
    hide IsTerrible;
    hide Shows;
    if n > 0 {
      SampleIsGood(e, s, n - 1, now);
      var a, r := Sample(s.info, s.random[..n - 1], now), Sample(s.info, s.random[..n], now);
      SampleExtends(s, n - 1, now);
      StaysSound(s, n - 1, now, a, r);
      StaysComplete(s, n - 1, now, a, r);
      StaysDistinct(e, s, n - 1, now, a, r);
    }
  }

  lemma SampleExtends(s: State, n: nat, now: int)
    requires n < |s.random|
    ensures Extends(s, n, now, Sample(s.info, s.random[..n], now), Sample(s.info, s.random[..n + 1], now))
  {
    hide IsTerrible;
    SampleSnoc(s.info, s.random, n, now);
    hide Sample;
  }

  /** The sample of one entry more. */
  ghost predicate Extends(s: State, n: nat, now: int, a: seq<Address>, r: seq<Address>)
    requires n < |s.random|
  {
    if s.random[n] in s.info && !IsTerrible(s.info[s.random[n]], now)
    then |r| == |a| + 1 && r[..|a|] == a && Shows(s, n, now, r[|a|]) else r == a
  }

  lemma StaysSound(s: State, n: nat, now: int, a: seq<Address>, r: seq<Address>)
    requires n < |s.random| && Sound(s, n, now, a) && Extends(s, n, now, a, r)
    ensures Sound(s, n + 1, now, r)
  {
    hide IsTerrible;
    forall i | 0 <= i < |r| ensures IsShown(s, n + 1, now, r[i]) {
      if i < |a| {
        assert r[..|a|][i] == a[i];
        assert IsShown(s, n, now, a[i]);
      } else {
        assert Shows(s, n, now, r[i]);
      }
    }
  }

  lemma StaysComplete(s: State, n: nat, now: int, a: seq<Address>, r: seq<Address>)
    requires n < |s.random| && Complete(s, n, now, a) && Extends(s, n, now, a, r)
    ensures Complete(s, n + 1, now, r)
  {
    hide Shows;
    hide IsTerrible;
    forall p | 0 <= p < n + 1 && s.random[p] in s.info && !IsTerrible(s.info[s.random[p]], now)
      ensures exists i :: 0 <= i < |r| && Shows(s, p, now, r[i])
    {
      if p < n {
        var i :| 0 <= i < |a| && Shows(s, p, now, a[i]);
        assert r[..|a|][i] == a[i];
        assert Shows(s, p, now, r[i]);
      } else {
        assert Shows(s, p, now, r[|a|]);
      }
    }
  }

  lemma StaysDistinct(e: Env, s: State, n: nat, now: int, a: seq<Address>, r: seq<Address>)
    requires Consistent(e, s) && n < |s.random| && Sound(s, n, now, a) && Distinct(a) && Extends(s, n, now, a, r)
    ensures Distinct(r)
  {
    hide IsTerrible;
    hide Consistent;
    forall i, j | 0 <= i < j < |r| ensures r[i].service.addr != r[j].service.addr {
      assert r[..|a|][i] == a[i];
      if j < |a| {
        assert r[..|a|][j] == a[j];
      } else {
        assert IsShown(s, n, now, a[i]);
        var p :| 0 <= p < n && Shows(s, p, now, a[i]);
        DistinctAddresses(e, s, p, n);
      }
    }
  }

  lemma DistinctAddresses(e: Env, s: State, p: int, q: int)
    requires Consistent(e, s) && 0 <= p < q < |s.random|
    ensures s.random[p] in s.info && s.random[q] in s.info
    ensures s.info[s.random[p]].service.addr != s.info[s.random[q]].service.addr
  {
    hide TriedOk;
    hide NewOk;
    hide TimesOk;
    hide Counted;
    hide Live;
    assert s.random[p] in s.pos.Keys && s.random[q] in s.pos.Keys;
    assert s.random[p] != s.random[q] by {
      assert s.pos[s.random[p]] == p && s.pos[s.random[q]] == q;
    }
    hide RandomOk;
    var a, b := s.info[s.random[p]].service.addr, s.info[s.random[q]].service.addr;
    assert s.addr[a] == s.random[p] && s.addr[b] == s.random[q];
  }

  // ---- runs

  datatype Op =
    | Add(a: Address, routable: bool, source: NetAddr, penalty: int, now: int, lucky: bool)
    | Good(svc: Service, nTime: int)
    | Attempt(svc: Service, nTime: int)
    | Connected(svc: Service, nTime: int)
    | GetAddr

  /** Connection results carry real times. */
  predicate Timely(op: Op) {
    (op.Good? ==> op.nTime > 0) && (op.Attempt? ==> op.nTime >= 0)
  }

  /** From a consistent state an operation does what the functions above say; from any other, anything. */
  ghost predicate Step(e: Env, s: State, op: Op, r: State) {
    Timely(op) && (Consistent(e, s) ==>
    match op
    case Add(a, routable, source, penalty, now, lucky) => r == Added(e, s, a, routable, source, penalty, now, lucky)
    case Good(svc, nTime) => r == MarkedGood(e, s, svc, nTime)
    case Attempt(svc, nTime) => r == Attempted(s, svc, nTime)
    case Connected(svc, nTime) => r == ConnectedTo(s, svc, nTime)
    case GetAddr => Shuffled(s, r))
  }

  lemma StepKeeps(e: Env, s: State, op: Op, r: State)
    requires Consistent(e, s) && Step(e, s, op, r)
    ensures Consistent(e, r)
  {
    hide RandomOk;
    hide NewOk;
    hide TriedOk;
    hide Counted;
    hide AddrOk;
    match op
    case Add(a, routable, source, penalty, now, lucky) => AddKeeps(e, s, a, routable, source, penalty, now, lucky);
    case Good(svc, nTime) => GoodKeeps(e, s, svc, nTime);
    case Attempt(svc, nTime) =>
      if Knows(s, svc) {
        var id := s.addr[svc.addr];
        TouchKeeps(e, s, id, s.info[id].(nLastTry := nTime, nAttempts := s.info[id].nAttempts + 1));
      }
    case Connected(svc, nTime) =>
      if Knows(s, svc) {
        var id := s.addr[svc.addr];
        TouchKeeps(e, s, id, s.info[id].(nTime := nTime));
      }
    case GetAddr => CountsIgnoreOrder(s, r);
  }

  lemma CountsIgnoreOrder(s: State, r: State)
    requires Shuffled(s, r) && Counted(s, 0)
    ensures Counted(r, 0)
  {}

  /** A sequence of operations and the states it goes through. */
  ghost predicate Run(e: Env, states: seq<State>, ops: seq<Op>) {
    |states| == |ops| + 1 && forall i :: 0 <= i < |ops| ==> Step(e, states[i], ops[i], states[i + 1])
  }

  /** After any operations on a new manager, every state passes every condition of `Check_`. */
  lemma {:induction false} RunsPassCheck(e: Env, states: seq<State>, ops: seq<Op>, k: nat)
    requires e.key != 0 && Run(e, states, ops) && states[0] == EMPTY && k < |states|
    ensures Consistent(e, states[k]) && CheckPasses(e, states[k])
  {
    hide Consistent;
    hide CheckPasses;
    if k == 0 {
      EmptyIsConsistent(e);
    } else {
      RunsPassCheck(e, states, ops, k - 1);
      StepKeeps(e, states[k - 1], ops[k - 1], states[k - 1 + 1]);
    }
    ConsistentPassesCheck(e, states[k]);
  }

  // ---- a newcomer that is dropped

  function Peer(i: nat, now: int): (a: Address) {
    Address(Service(NetAddr(i), 8333), {}, now)
  }

  /** Whatever the hashes, two of enough peers get the same new slot. */
  lemma SlotsCollide(e: Env, source: NetAddr)
    ensures exists i: nat, j: nat :: i < j && NewSlot(e, Peer(i, 0).service, source) == NewSlot(e, Peer(j, 0).service, source)
  {
    var n := NEW_BUCKET_COUNT * BUCKET_SIZE;
    var v := seq(n + 1, i requires 0 <= i => SlotNumber(e, i, source));
    Repeats(v, n);
    var i, j :| 0 <= i < j < |v| && v[i] == v[j];
    var a, b := NewSlot(e, Peer(i, 0).service, source), NewSlot(e, Peer(j, 0).service, source);
    assert a.0 * BUCKET_SIZE + a.1 == b.0 * BUCKET_SIZE + b.1;
  }

  function SlotNumber(e: Env, i: nat, source: NetAddr): (x: nat)
    ensures x < NEW_BUCKET_COUNT * BUCKET_SIZE
  {
    var slot := NewSlot(e, Peer(i, 0).service, source);
    slot.0 * BUCKET_SIZE + slot.1
  }

  /** Two announcements to a new manager. */
  function TwoPeers(i: nat, j: nat, source: NetAddr, now: int): (ops: seq<Op>) {
    [Add(Peer(i, now), true, source, 0, now, true), Add(Peer(j, now), true, source, 0, now, true)]
  }

  /** An address in its slot: it is known, in no other slot, and not terrible. */
  lemma FirstStays(e: Env, i: nat, source: NetAddr, now: int)
    requires e.key != 0 && now > 0
    ensures Consistent(e, EMPTY)
    ensures var r, slot := Added(e, EMPTY, Peer(i, now), true, source, 0, now, true), NewSlot(e, Peer(i, now).service, source);
            && Consistent(e, r) && slot in r.news && r.news[slot] == 0 && r.info.Keys == {0}
            && r.info[0].service == Peer(i, now).service && r.info[0].nRefCount == 1 && !IsTerrible(r.info[0], now)
  {
    EmptyIsConsistent(e);
    AddKeeps(e, EMPTY, Peer(i, now), true, source, 0, now, true);
    CreateKeepsCore(e, EMPTY, Peer(i, now), source, now);
    hide RandomOk;
    hide NewOk;
    hide TriedOk;
    hide AddrOk;
    hide Counted;
    hide TimesOk;
    hide Live;
    hide IdsOk;
    hide NewBucket;
    hide Position;
    hide Inserted;
    hide Cleared;
    hide Deleted;
    var w, slot := Created(EMPTY, Peer(i, now), source, now), NewSlot(e, Peer(i, now).service, source);
    InsertKeeps(e, w, {0}, 0, slot, 0);
  }

  /** The second of two addresses with the same slot is forgotten at once. */
  lemma SecondIsDropped(e: Env, i: nat, j: nat, source: NetAddr, now: int)
    requires e.key != 0 && now > 0 && i != j
    requires NewSlot(e, Peer(i, now).service, source) == NewSlot(e, Peer(j, now).service, source)
    ensures Consistent(e, EMPTY)
    ensures var s1 := Added(e, EMPTY, Peer(i, now), true, source, 0, now, true);
            && Consistent(e, s1) && NetAddr(j) !in s1.addr
            && var s2 := Added(e, s1, Peer(j, now), true, source, 0, now, true);
               NetAddr(j) !in s2.addr && NetAddr(i) in s2.addr && s2.info == s1.info
  {
    hide Core;
    hide TimesOk;
    hide Counted;
    hide IsTerrible;
    hide NewSlot;
    hide Slotted;
    hide Created;
    FirstStays(e, i, source, now);
    var s1 := Added(e, EMPTY, Peer(i, now), true, source, 0, now, true);
    KnowsOnly(e, s1, i);
    NewcomerStays(e, s1, Peer(j, now), source, 0, now, true);
    AddKeeps(e, s1, Peer(j, now), true, source, 0, now, true);
    hide Added;
    KnowsOnly(e, Added(e, s1, Peer(j, now), true, source, 0, now, true), i);
  }

  /** Whatever the hashes, there are two announcements after which a manager that was new does not know the second address,
      although it reported it as new. */
  lemma NewcomerCanBeDropped(e: Env, source: NetAddr, now: int)
    requires e.key != 0 && now > 0
    ensures exists i: nat, j: nat, s1: State, s2: State :: DropsSecond(e, i, j, source, now, s1, s2)
  {
    hide Consistent;
    hide Added;
    hide NewSlot;
    SlotsCollide(e, source);
    var i: nat, j: nat :| i < j && NewSlot(e, Peer(i, 0).service, source) == NewSlot(e, Peer(j, 0).service, source);
    SecondIsDropped(e, i, j, source, now);
    var s1 := Added(e, EMPTY, Peer(i, now), true, source, 0, now, true);
    var s2 := Added(e, s1, Peer(j, now), true, source, 0, now, true);
    var states, ops := [EMPTY, s1, s2], TwoPeers(i, j, source, now);
    assert Step(e, states[0], ops[0], states[1]);
    assert Step(e, states[1], ops[1], states[2]);
    assert DropsSecond(e, i, j, source, now, s1, s2);
  }

  /** A run of two announcements that ends knowing the first address and not the second. */
  ghost predicate DropsSecond(e: Env, i: nat, j: nat, source: NetAddr, now: int, s1: State, s2: State) {
    && Run(e, [EMPTY, s1, s2], TwoPeers(i, j, source, now))
    && NetAddr(j) !in s1.addr && NetAddr(j) !in s2.addr && NetAddr(i) in s2.addr && s2.info == s1.info
  }

  lemma KnowsOnly(e: Env, s: State, i: nat)
    requires Consistent(e, s) && s.info.Keys == {0} && s.info[0].service.addr == NetAddr(i)
    ensures forall j: nat :: NetAddr(j) in s.addr <==> j == i
  {
    hide RandomOk;
    hide NewOk;
    hide TriedOk;
    hide Counted;
    hide TimesOk;
    hide Live;
    hide IdsOk;
    forall a | a in s.addr ensures a == NetAddr(i) {
      assert s.addr[a] in s.info.Keys;
    }
    assert 0 in s.info.Keys;
  }
}
