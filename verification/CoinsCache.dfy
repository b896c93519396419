/**
 The stack of write-back caches over the coin database (`CCoinsViewCache` over
 `CCoinsViewDB`). Entries carry DIRTY (may differ from the view below) and FRESH (the
 view below has nothing unspent); reads pull entries up through every layer; a flush
 writes the dirty ones down one layer. A view reads a fully spent entry as absent.
 */
module CoinsCache {
  import opened Basics
  import opened Coins

  type TxId = nat
  datatype Entry = Entry(coins: Coins, isDirty: bool, isFresh: bool)
  type CoinsMap = map<TxId, Entry>

  // ---- the stack as a value

  datatype Stack = Bottom(store: map<TxId, Coins>) | Layer(cache: CoinsMap, below: Stack)

  /** What `GetCoins` finds: the topmost entry, spent or not. */
  function Lookup(s: Stack, id: TxId): (r: Option<Coins>) {
    match s
    case Bottom(store) => if id in store then Some(store[id]) else None
    case Layer(cache, below) => if id in cache then Some(cache[id].coins) else Lookup(below, id)
  }

  function Unspent(c: Option<Coins>): (r: Option<Coins>) {
    if c.Some? && c.value.IsPruned() then None else c
  }

  /** The view: fully spent reads as absent. */
  function Visible(s: Stack, id: TxId): (r: Option<Coins>) {
    Unspent(Lookup(s, id))
  }

  /** What makes an entry for `id` right in a cache over `below`. */
  ghost predicate EntryOk(e: Entry, below: Stack, id: TxId) {
    && e.coins.IsTidy()
    && (e.isFresh ==> Visible(below, id) == None)
    && (!e.isDirty ==> Unspent(Some(e.coins)) == Visible(below, id))
    && (!e.isFresh && below.Layer? ==> id in below.cache)
  }

  ghost predicate EntriesOk(m: CoinsMap, below: Stack) {
    forall id :: id in m ==> EntryOk(m[id], below, id)
  }

  ghost predicate Inv(s: Stack) {
    match s
    case Bottom(store) => forall id :: id in store ==> store[id].IsTidy() && !store[id].IsPruned()
    case Layer(cache, below) => Inv(below) && EntriesOk(cache, below)
  }

  /** A read of `id`: every layer without an entry for it takes over what the layer below has. */
  function Fetched(s: Stack, id: TxId): (r: Stack) {
    match s
    case Bottom(_) => s
    case Layer(cache, below) =>
      if id in cache then s
      else
        match Lookup(below, id)
        case None => Layer(cache, Fetched(below, id))
        case Some(c) => Layer(cache[id := Entry(c, false, c.IsPruned())], Fetched(below, id))
  }

  /** `ModifyCoins`: an entry for `id`, marked dirty, empty and fresh when there was nothing below. */
  function Opened(s: Stack, id: TxId): (r: Stack)
    requires s.Layer?
  {
    if id in s.cache then Layer(s.cache[id := s.cache[id].(isDirty := true)], s.below)
    else
      var found := Lookup(s.below, id);
      var e := if found == None then Entry(NO_COINS, true, true) else Entry(found.value, true, found.value.IsPruned());
      Layer(s.cache[id := e], Fetched(s.below, id))
  }

  /** The end of a modification that left `c` in the entry: tidied, and dropped when fresh and fully spent. */
  function Closed(s: Stack, id: TxId, c: Coins): (r: Stack)
    requires s.Layer? && id in s.cache
  {
    if s.cache[id].isFresh && c.IsPruned() then Layer(s.cache - {id}, s.below)
    else Layer(s.cache[id := s.cache[id].(coins := c.Tidied())], s.below)
  }

  /** One entry of a batch written into a cache. */
  function WrittenEntry(cache: CoinsMap, id: TxId, e: Entry): (r: CoinsMap) {
    if !e.isDirty then cache
    else if id !in cache then
      if e.coins.IsPruned() then cache else cache[id := Entry(e.coins, true, true)]
    else if cache[id].isFresh && e.coins.IsPruned() then cache - {id}
    else cache[id := Entry(e.coins, true, cache[id].isFresh)]
  }

  /** A whole batch, every entry independently of the others. */
  function Written(s: Stack, m: CoinsMap): (r: Stack) {
    match s
    case Bottom(store) =>
      Bottom(map id | id in store.Keys + m.Keys
                      && (if id in m && m[id].isDirty then !m[id].coins.IsPruned() else id in store)
               :: if id in m && m[id].isDirty then m[id].coins else store[id])
    case Layer(cache, below) =>
      Layer(map id | id in cache.Keys + m.Keys && id in (if id in m then WrittenEntry(cache, id, m[id]) else cache)
              :: (if id in m then WrittenEntry(cache, id, m[id]) else cache)[id],
            below)
  }

  function Flushed(s: Stack): (r: Stack)
    requires s.Layer?
  {
    Layer(map[], Written(s.below, s.cache))
  }

  // ---- what the operations keep and what they do to the view

  lemma {:induction false} FetchKeepsLookups(s: Stack, id: TxId, x: TxId)
    ensures Lookup(Fetched(s, id), x) == Lookup(s, x)
  {
    if s.Layer? {
      FetchKeepsLookups(s.below, id, x);
    }
  }

  lemma {:induction false} LookupIsTidy(s: Stack, id: TxId)
    requires Inv(s) && Lookup(s, id).Some?
    ensures Lookup(s, id).value.IsTidy()
  {
    if s.Layer? && id !in s.cache {
      LookupIsTidy(s.below, id);
    }
  }

  /** Entries stay right when the layers below are only filled by reads. */
  lemma EntryOkAfterFetch(e: Entry, below: Stack, x: TxId, id: TxId)
    requires EntryOk(e, below, x)
    ensures EntryOk(e, Fetched(below, id), x)
  {
    FetchKeepsLookups(below, id, x);
  }

  lemma {:induction false} FetchKeepsInv(s: Stack, id: TxId)
    requires Inv(s)
    ensures Inv(Fetched(s, id))
  {
    if s.Layer? && id !in s.cache {
      FetchKeepsInv(s.below, id);
      forall x | x in s.cache ensures EntryOk(s.cache[x], Fetched(s.below, id), x) {
        EntryOkAfterFetch(s.cache[x], s.below, x, id);
      }
      PulledEntryOk(s.below, id);
    }
  }

  /** An entry taken over from below, whether marked dirty or not, is right. */
  lemma PulledEntryOk(below: Stack, id: TxId)
    requires Inv(below)
    ensures var found := Lookup(below, id);
            if found == None then EntryOk(Entry(NO_COINS, true, true), Fetched(below, id), id)
            else forall dirty :: EntryOk(Entry(found.value, dirty, found.value.IsPruned()), Fetched(below, id), id)
  {
    FetchKeepsLookups(below, id, id);
    if Lookup(below, id).Some? {
      LookupIsTidy(below, id);
    }
  }

  /** Opening a modification changes no view, and the entry holds what the view shows. */
  lemma OpenKeepsView(s: Stack, id: TxId, x: TxId)
    requires Inv(s) && s.Layer?
    ensures Inv(Opened(s, id)) && id in Opened(s, id).cache && Opened(s, id).cache[id].isDirty
    ensures Visible(Opened(s, id), x) == Visible(s, x)
    ensures Unspent(Some(Opened(s, id).cache[id].coins)) == Visible(s, id)
  {
    if id !in s.cache {
      FetchKeepsInv(s.below, id);
      forall y | y in s.cache ensures EntryOk(s.cache[y], Fetched(s.below, id), y) {
        EntryOkAfterFetch(s.cache[y], s.below, y, id);
      }
      PulledEntryOk(s.below, id);
      FetchKeepsLookups(s.below, id, x);
    }
  }

  /** Closing it changes the view at `id` only, to the coins left there. */
  lemma CloseEdits(s: Stack, id: TxId, c: Coins, x: TxId)
    requires Inv(s) && s.Layer? && id in s.cache && s.cache[id].isDirty
    ensures Inv(Closed(s, id, c))
    ensures Visible(Closed(s, id, c), x) == if x == id then Unspent(Some(c.Tidied())) else Visible(s, x)
  {}

  /** A batch of right entries over `s` makes the view below show what the batch shows, and the assertion
      that a new unspent entry is fresh cannot fail. */
  lemma BatchWrites(s: Stack, m: CoinsMap, x: TxId)
    requires Inv(s) && EntriesOk(m, s)
    ensures s.Layer? && x in m && m[x].isDirty && x !in s.cache && !m[x].coins.IsPruned() ==> m[x].isFresh
    ensures Visible(Written(s, m), x) == if x in m then Unspent(Some(m[x].coins)) else Visible(s, x)
  {
    if x in m {
      assert EntryOk(m[x], s, x);
    }
  }

  lemma WriteKeepsInv(s: Stack, m: CoinsMap)
    requires Inv(s) && EntriesOk(m, s)
    ensures Inv(Written(s, m))
  {
    var w := Written(s, m);
    if s.Layer? {
      forall x | x in w.cache ensures EntryOk(w.cache[x], s.below, x) {
        if x in m {
          assert EntryOk(m[x], s, x);
        }
        if x in s.cache {
          assert EntryOk(s.cache[x], s.below, x);
        }
      }
    } else {
      forall x | x in w.store ensures w.store[x].IsTidy() && !w.store[x].IsPruned() {
        if x in m {
          assert EntryOk(m[x], s, x);
        }
      }
    }
  }

  /** A flush empties the top cache and changes no view of the top; the view below becomes the top's. */
  lemma FlushKeepsView(s: Stack, x: TxId)
    requires Inv(s) && s.Layer?
    ensures Inv(Flushed(s))
    ensures Visible(Flushed(s), x) == Visible(s, x)
    ensures Visible(Flushed(s).below, x) == Visible(s, x)
  {
    WriteKeepsInv(s.below, s.cache);
    BatchWrites(s.below, s.cache, x);
  }

  /** `HaveCoins` looks at the array being empty instead of at every output: for the coins a cache holds
      that comes to the same. */
  lemma HaveCoinsIsExact(s: Stack, id: TxId)
    requires Inv(s)
    ensures (Lookup(s, id).Some? && Lookup(s, id).value.vout != []) <==> Visible(s, id).Some?
  {
    if Lookup(s, id).Some? {
      LookupIsTidy(s, id);
      TidyPrunedIsEmpty(Lookup(s, id).value);
    }
  }

  // ---- runs: a stack of any depth against a stack of plain maps

  datatype Op = Read(id: TxId) | Edit(id: TxId, coins: Coins) | Push | Flush | Pop

  /** Only the top cache is edited; the database itself is not. */
  predicate Allowed(s: Stack, op: Op) {
    s.Layer? || op.Read? || op.Push?
  }

  function Step(s: Stack, op: Op): (r: Stack)
    requires Allowed(s, op)
  {
    match op
    case Read(id) => Fetched(s, id)
    case Edit(id, c) => Closed(Opened(s, id), id, c)
    case Push => Layer(map[], s)
    case Flush => Flushed(s)
    case Pop => s.below
  }

  function Depth(s: Stack): (d: nat) {
    if s.Layer? then Depth(s.below) + 1 else 0
  }

  /** The same on plain maps, one per level: an edit changes the top map, a push copies it, a flush copies it down. */
  function PlainStep(ms: seq<map<TxId, Coins>>, op: Op): (r: seq<map<TxId, Coins>>)
    requires |ms| >= 1 && (op.Edit? || op.Flush? || op.Pop? ==> |ms| >= 2)
  {
    var top := ms[|ms| - 1];
    match op
    case Read(_) => ms
    case Edit(id, c) => ms[|ms| - 1 := if c.IsPruned() then top - {id} else top[id := c.Tidied()]]
    case Push => ms + [top]
    case Flush => ms[|ms| - 2 := top]
    case Pop => ms[..|ms| - 1]
  }

  /** At every level the view is the plain map. */
  ghost predicate Refines(s: Stack, ms: seq<map<TxId, Coins>>) {
    && |ms| == Depth(s) + 1
    && (forall x: TxId :: Visible(s, x) == Get(ms[|ms| - 1], x))
    && (s.Layer? ==> Refines(s.below, ms[..|ms| - 1]))
  }

  function Get(m: map<TxId, Coins>, x: TxId): (r: Option<Coins>) {
    if x in m then Some(m[x]) else None
  }

  lemma {:induction false} FetchKeepsLevels(s: Stack, id: TxId, ms: seq<map<TxId, Coins>>)
    requires Refines(s, ms)
    ensures Refines(Fetched(s, id), ms)
  {
    forall x: TxId ensures Visible(Fetched(s, id), x) == Get(ms[|ms| - 1], x) {
      FetchKeepsLookups(s, id, x);
      assert Visible(s, x) == Get(ms[|ms| - 1], x);
    }
    if s.Layer? && id !in s.cache {
      FetchKeepsLevels(s.below, id, ms[..|ms| - 1]);
    }
  }

  lemma EditRefines(s: Stack, id: TxId, c: Coins, ms: seq<map<TxId, Coins>>)
    requires Inv(s) && s.Layer? && Refines(s, ms)
    ensures Inv(Closed(Opened(s, id), id, c))
    ensures Refines(Closed(Opened(s, id), id, c), PlainStep(ms, Edit(id, c)))
  {
    var o := Opened(s, id);
    OpenKeepsView(s, id, id);
    var r, ms' := Closed(o, id, c), PlainStep(ms, Edit(id, c));
    CloseEdits(o, id, c, id);
    assert r.below == o.below;
    forall x: TxId ensures Visible(r, x) == Get(ms'[|ms'| - 1], x) {
      OpenKeepsView(s, id, x);
      CloseEdits(o, id, c, x);
    }
    FetchKeepsLevels(s.below, id, ms[..|ms| - 1]);
    assert ms'[..|ms'| - 1] == ms[..|ms| - 1];
  }

  lemma FlushRefines(s: Stack, ms: seq<map<TxId, Coins>>)
    requires Inv(s) && s.Layer? && Refines(s, ms)
    ensures Inv(Flushed(s)) && Refines(Flushed(s), PlainStep(ms, Flush))
  {
    FlushKeepsView(s, 0);
    var r, ms' := Flushed(s), PlainStep(ms, Flush);
    forall x: TxId ensures Visible(r, x) == Visible(r.below, x) == Get(ms[|ms| - 1], x) {
      FlushKeepsView(s, x);
    }
    assert Refines(r.below, ms'[..|ms'| - 1]) by {
      var lower := ms'[..|ms'| - 1];
      assert lower[|lower| - 1] == ms[|ms| - 1];
      if r.below.Layer? {
        assert lower[..|lower| - 1] == ms[..|ms| - 1][..|ms| - 2];
      }
    }
  }

  lemma PushRefines(s: Stack, ms: seq<map<TxId, Coins>>)
    requires Inv(s) && Refines(s, ms)
    ensures Inv(Layer(map[], s)) && Refines(Layer(map[], s), PlainStep(ms, Push))
  {
    var ms' := PlainStep(ms, Push);
    assert ms'[..|ms'| - 1] == ms;
    forall x: TxId ensures Visible(Layer(map[], s), x) == Get(ms'[|ms'| - 1], x) {
      assert Visible(s, x) == Get(ms[|ms| - 1], x);
    }
  }

  lemma StepRefines(s: Stack, op: Op, ms: seq<map<TxId, Coins>>)
    requires Inv(s) && Refines(s, ms) && Allowed(s, op)
    ensures Inv(Step(s, op)) && Refines(Step(s, op), PlainStep(ms, op))
  {
    match op
    case Read(id) =>
      FetchKeepsInv(s, id);
      FetchKeepsLevels(s, id, ms);
    case Edit(id, c) => EditRefines(s, id, c, ms);
    case Push => PushRefines(s, ms);
    case Flush => FlushRefines(s, ms);
    case Pop =>
  }

  /** `after` is reached from `before` by the operations `ops`, and `msAfter` from `ms` by the same on plain maps. */
  ghost predicate Run(before: Stack, ms: seq<map<TxId, Coins>>, ops: seq<Op>, after: Stack, msAfter: seq<map<TxId, Coins>>)
    decreases |ops|
  {
    if ops == [] then before == after && ms == msAfter
    else
      && Allowed(before, ops[0])
      && (|ms| == Depth(before) + 1 ==> Run(Step(before, ops[0]), PlainStep(ms, ops[0]), ops[1..], after, msAfter))
  }

  /** A database of unspent entries is where runs start: it is what its plain map holds. */
  lemma StoreRefines(store: map<TxId, Coins>)
    requires forall id :: id in store ==> store[id].IsTidy() && !store[id].IsPruned()
    ensures Inv(Bottom(store)) && Refines(Bottom(store), [store])
  {
    forall x ensures Visible(Bottom(store), x) == if x in store then Some(store[x]) else None {
    }
  }

  /** Over every run from a database of unspent entries, at every depth the stack of caches shows exactly
      what the plain maps hold. */
  lemma {:induction false} RunsRefine(before: Stack, ms: seq<map<TxId, Coins>>, ops: seq<Op>, after: Stack, msAfter: seq<map<TxId, Coins>>)
    requires Inv(before) && Refines(before, ms) && Run(before, ms, ops, after, msAfter)
    ensures Inv(after) && Refines(after, msAfter)
    decreases |ops|
  {
    if ops != [] {
      StepRefines(before, ops[0], ms);
      RunsRefine(Step(before, ops[0]), PlainStep(ms, ops[0]), ops[1..], after, msAfter);
    }
  }
}
