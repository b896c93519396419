/**
 The parallel check queue (`CCheckQueue`): a master adds checks, any number of workers
 take them in batches, and the master joins in until all are done. Each critical section
 is one atomic step, and so is each single check run outside the mutex; steps of
 different threads interleave freely, and a waiting thread may also wake for no reason.
 */
module CheckQueue {
  import opened Basics
  import opened Numerals

  /** One verification; `ok` is what running it returns. */
  datatype Check = Check(id: nat, ok: bool)

  /** The fields the mutex protects. */
  datatype Shared = Shared(queue: seq<Check>, nIdle: int, nTotal: int, fAllOk: bool, nTodo: int, nBatchSize: nat)

  /** How a thread leaves its critical section. */
  datatype Outcome = Returned(result: bool) | Blocked | Took(batch: seq<Check>, fOk: bool)

  function Max(a: int, b: int): int {
    if a > b then a else b
  }

  function Min(a: int, b: int): int {
    if a < b then a else b
  }

  function BatchCount(sh: Shared): (n: nat)
    requires sh.queue != [] && sh.nIdle >= 0 && sh.nTotal >= 0
    ensures 1 <= n <= |sh.queue|
  {
    DivBounds(|sh.queue|, sh.nTotal + sh.nIdle + 1);
    Max(1, Min(sh.nBatchSize, |sh.queue| / (sh.nTotal + sh.nIdle + 1)))
  }

  /** What a thread does with the mutex from the inner loop test on: return, wait, or take a batch off the back. */
  function LoopHead(sh: Shared, fMaster: bool): (r: (Shared, Outcome))
    requires sh.nIdle >= 0 && sh.nTotal >= 0
  {
    if sh.queue == [] then
      if fMaster && sh.nTodo == 0 then (sh.(nTotal := sh.nTotal - 1, fAllOk := true), Returned(sh.fAllOk))
      else (sh.(nIdle := sh.nIdle + 1), Blocked)
    else
      var left := |sh.queue| - BatchCount(sh);
      (sh.(queue := sh.queue[..left]), Took(Reversed(sh.queue[left..]), sh.fAllOk))
  }

  /** Clean-up after a batch of `nNow` checks; the first time round there is none. */
  function CleanUp(sh: Shared, nNow: nat, fOk: bool): (r: Shared) {
    if nNow > 0 then sh.(fAllOk := sh.fAllOk && fOk, nTodo := sh.nTodo - nNow) else sh.(nTotal := sh.nTotal + 1)
  }

  function AllOk(s: seq<Check>): (b: bool)
    ensures b <==> forall i :: 0 <= i < |s| ==> s[i].ok
  {
    forall i :: 0 <= i < |s| ==> s[i].ok
  }

  /** What a new controller asserts of the queue; `IdleMeansDone` says what it comes to. */
  predicate Idle(sh: Shared) {
    sh.nTotal == sh.nIdle && sh.nTodo == 0 && sh.fAllOk
  }

  // ---- the critical sections as methods

  class Queue {
    var queue: seq<Check>
    var nIdle: int
    var nTotal: int
    var fAllOk: bool
    var nTodo: int
    const nBatchSize: nat

    function Fields(): (sh: Shared)
      reads this
    {
      Shared(queue, nIdle, nTotal, fAllOk, nTodo, nBatchSize)
    }

    constructor (batchSize: nat)
      ensures Fields() == Shared([], 0, 0, true, 0, batchSize)
    {
      queue, nIdle, nTotal, fAllOk, nTodo, nBatchSize := [], 0, 0, true, 0, batchSize;
    }

    method Add(vChecks: seq<Check>)
      modifies this
      ensures Fields() == old(Fields()).(queue := old(queue) + vChecks, nTodo := old(nTodo) + |vChecks|)
    {
      var i := 0;
      while i < |vChecks|
        invariant 0 <= i <= |vChecks|
        invariant Fields() == old(Fields()).(queue := old(queue) + vChecks[..i])
      {
        assert vChecks[..i + 1] == vChecks[..i] + [vChecks[i]];
        queue := queue + [vChecks[i]];
        i := i + 1;
      }
      assert vChecks[..i] == vChecks;
      nTodo := nTodo + |vChecks|;
    }

    /** The critical section of `Loop` up to where it returns, waits or has its batch. */
    method Section(fMaster: bool, nNow: nat, fOk: bool) returns (o: Outcome, notifyMaster: bool)
      requires nIdle >= 0 && nTotal >= 0
      modifies this
      ensures (Fields(), o) == LoopHead(CleanUp(old(Fields()), nNow, fOk), fMaster)
      ensures notifyMaster <==> nNow > 0 && old(nTodo) == nNow && !fMaster
    {
      hide LoopHead;
      notifyMaster := false;
      if nNow > 0 {
        fAllOk := fAllOk && fOk;
        nTodo := nTodo - nNow;
        if nTodo == 0 && !fMaster {
          notifyMaster := true;
        }
      } else {
        nTotal := nTotal + 1;
      }
      o := Head(fMaster);
    }

    /** The same from a wake-up on. */
    method Awake(fMaster: bool) returns (o: Outcome)
      requires nIdle >= 1 && nTotal >= 0
      modifies this
      ensures (Fields(), o) == LoopHead(old(Fields()).(nIdle := old(nIdle) - 1), fMaster)
    {
      nIdle := nIdle - 1;
      o := Head(fMaster);
    }

    method Head(fMaster: bool) returns (o: Outcome)
      requires nIdle >= 0 && nTotal >= 0
      modifies this
      ensures (Fields(), o) == LoopHead(old(Fields()), fMaster)
    {
      if queue == [] {
        if fMaster && nTodo == 0 {
          nTotal := nTotal - 1;
          o := Returned(fAllOk);
          fAllOk := true;
          return;
        }
        nIdle := nIdle + 1;
        o := Blocked;
        return;
      }
      var nNow := BatchCount(Fields());
      var vChecks := [];
      var i := 0;
      while i < nNow
        invariant 0 <= i <= nNow <= |old(queue)| && nNow == BatchCount(old(Fields()))
        invariant |queue| == |old(queue)| - i && Fields() == old(Fields()).(queue := old(queue)[..|old(queue)| - i])
        invariant |vChecks| == i && forall j :: 0 <= j < i ==> vChecks[j] == old(queue)[|old(queue)| - 1 - j]
      {
        vChecks := vChecks + [queue[|queue| - 1]];
        queue := queue[..|queue| - 1];
        i := i + 1;
      }
      assert vChecks == Reversed(old(queue)[|old(queue)| - nNow..]);
      o := Took(vChecks, fAllOk);
    }

    method IsIdle() returns (r: bool)
      ensures r <==> Idle(Fields())
    {
      r := nTotal == nIdle && nTodo == 0 && fAllOk == true;
    }
  }

  /** The work outside the mutex: once a check fails the rest of the batch is skipped. */
  method RunBatch(vChecks: seq<Check>, fAllOk: bool) returns (fOk: bool)
    ensures fOk <==> fAllOk && AllOk(vChecks)
  {
    fOk := fAllOk;
    for i := 0 to |vChecks|
      invariant fOk <==> fAllOk && AllOk(vChecks[..i])
    {
      if fOk {
        fOk := vChecks[i].ok;
      }
    }
    assert vChecks[..|vChecks|] == vChecks;
  }

  // ---- all interleavings

  /** Where a thread is: not in `Loop`, blocked on its condition variable, or running a batch of which `done` checks are behind it. */
  datatype Thread = Outside | Waiting(notified: bool) | Working(batch: seq<Check>, done: nat, fOk: bool)

  const MASTER := 0

  /** `session` are the checks added since the master last returned from `Wait`. */
  datatype State = State(sh: Shared, threads: seq<Thread>, session: seq<Check>)

  datatype Action =
    | Enter(i: nat)                           // a worker starts, or the master calls Wait
    | Exec(i: nat)                            // one check of a batch
    | Finish(i: nat)                          // back into the mutex with the batch done
    | Wake(i: nat)                            // notified, or spuriously
    | Add(checks: seq<Check>, wakes: nat)     // by the master; notify_one reaches thread `wakes`

  predicate Enabled(s: State, a: Action) {
    match a
    case Enter(i) => i < |s.threads| && s.threads[i].Outside?
    case Exec(i) => i < |s.threads| && s.threads[i].Working? && s.threads[i].done < |s.threads[i].batch|
    case Finish(i) => i < |s.threads| && s.threads[i].Working? && s.threads[i].done == |s.threads[i].batch|
    case Wake(i) => i < |s.threads| && s.threads[i].Waiting?
    case Add(_, _) => |s.threads| > 0 && s.threads[MASTER].Outside?
  }

  /** The thread as its critical section leaves it; a master that returns ends the session. */
  function Left(s: State, i: nat, r: (Shared, Outcome)): (s': State)
    requires i < |s.threads|
  {
    match r.1
    case Returned(_) => State(r.0, s.threads[i := Outside], [])
    case Blocked => State(r.0, s.threads[i := Waiting(false)], s.session)
    case Took(batch, fOk) => State(r.0, s.threads[i := Working(batch, 0, fOk)], s.session)
  }

  function NotifyMaster(threads: seq<Thread>): (r: seq<Thread>) {
    if threads != [] && threads[MASTER].Waiting? then threads[MASTER := Waiting(true)] else threads
  }

  function NotifyWorkers(threads: seq<Thread>, count: nat, wakes: nat): (r: seq<Thread>)
    ensures |r| == |threads|
  {
    seq(|threads|, i requires 0 <= i < |threads| =>
      if i != MASTER && threads[i].Waiting? && (count > 1 || (count == 1 && i == wakes)) then Waiting(true) else threads[i])
  }

  function Section(s: State, a: Action): (r: (Shared, Outcome))
    requires Enabled(s, a) && (a.Enter? || a.Finish? || a.Wake?)
    requires s.sh.nTotal >= 0 && s.sh.nIdle >= if a.Wake? then 1 else 0
  {
    match a
    case Enter(i) => LoopHead(CleanUp(s.sh, 0, true), i == MASTER)
    case Finish(i) => LoopHead(CleanUp(s.sh, |s.threads[i].batch|, s.threads[i].fOk), i == MASTER)
    case Wake(i) => LoopHead(s.sh.(nIdle := s.sh.nIdle - 1), i == MASTER)
  }

  predicate CountersMakeSense(s: State) {
    s.sh.nTotal >= 0 && s.sh.nIdle >= 0 && forall i :: 0 <= i < |s.threads| && s.threads[i].Waiting? ==> s.sh.nIdle >= 1
  }

  function Step(s: State, a: Action): (s': State)
    requires Enabled(s, a) && CountersMakeSense(s)
  {
    match a
    case Exec(i) =>
      var t := s.threads[i];
      s.(threads := s.threads[i := t.(done := t.done + 1, fOk := if t.fOk then t.batch[t.done].ok else false)])
    case Add(checks, wakes) =>
      State(s.sh.(queue := s.sh.queue + checks, nTodo := s.sh.nTodo + |checks|),
            NotifyWorkers(s.threads, |checks|, wakes), s.session + checks)
    case Enter(i) => Left(s, i, Section(s, a))
    case Wake(i) => Left(s, i, Section(s, a))
    case Finish(i) =>
      var last := s.sh.nTodo == |s.threads[i].batch| && i != MASTER;
      Left(if last then s.(threads := NotifyMaster(s.threads)) else s, i, Section(s, a))
  }

  // ---- sums over threads

  function Load(t: Thread): nat {
    if t.Working? then |t.batch| else 0
  }

  function Asleep(t: Thread): nat {
    if t.Waiting? then 1 else 0
  }

  function Inside(t: Thread): nat {
    if t.Outside? then 0 else 1
  }

  function Busy(t: Thread): nat {
    if t.Working? then 1 else 0
  }

  function Total(ts: seq<Thread>, f: Thread -> nat): (n: nat) {
    if ts == [] then 0 else Total(ts[..|ts| - 1], f) + f(ts[|ts| - 1])
  }

  lemma {:induction false} TotalUpdate(ts: seq<Thread>, i: nat, t: Thread, f: Thread -> nat)
    requires i < |ts|
    ensures Total(ts[i := t], f) == Total(ts, f) - f(ts[i]) + f(t)
    ensures f(ts[i]) <= Total(ts, f)
  {
    var n := |ts| - 1;
    if i < n {
      TotalUpdate(ts[..n], i, t, f);
      assert ts[i := t][..n] == ts[..n][i := t];
    } else {
      assert ts[i := t][..n] == ts[..n];
    }
  }

  lemma {:induction false} TotalSame(ts: seq<Thread>, us: seq<Thread>, f: Thread -> nat)
    requires |ts| == |us| && forall i :: 0 <= i < |ts| ==> f(ts[i]) == f(us[i])
    ensures Total(ts, f) == Total(us, f)
  {
    if ts != [] {
      TotalSame(ts[..|ts| - 1], us[..|us| - 1], f);
    }
  }

  lemma {:induction false} TotalZero(ts: seq<Thread>, f: Thread -> nat)
    ensures Total(ts, f) == 0 <==> forall i :: 0 <= i < |ts| ==> f(ts[i]) == 0
  {
    if ts != [] {
      TotalZero(ts[..|ts| - 1], f);
      assert forall i :: 0 <= i < |ts| - 1 ==> ts[..|ts| - 1][i] == ts[i];
    }
  }

  // ---- the invariant

  /** The counters count: pending checks are those queued and those in batches. */
  ghost predicate Counts(s: State) {
    && s.sh.nTodo == |s.sh.queue| + Total(s.threads, Load)
    && s.sh.nIdle == Total(s.threads, Asleep)
    && s.sh.nTotal == Total(s.threads, Inside)
  }

  predicate Fails(s: seq<Check>) {
    !AllOk(s)
  }

  predicate Within(s: seq<Check>, t: seq<Check>) {
    forall i :: 0 <= i < |s| ==> s[i] in t
  }

  /** A failure this thread has seen or still has ahead of it in its batch. */
  predicate Carries(t: Thread) {
    t.Working? && (!t.fOk || (t.done <= |t.batch| && Fails(t.batch[t.done..])))
  }

  predicate ThreadOk(t: Thread, session: seq<Check>) {
    t.Working? ==> 1 <= |t.batch| && t.done <= |t.batch| && Within(t.batch, session) && (!t.fOk ==> Fails(session))
  }

  /** No verdict is lost and none is invented. */
  ghost predicate Verdict(s: State) {
    && Within(s.sh.queue, s.session)
    && (forall i :: 0 <= i < |s.threads| ==> ThreadOk(s.threads[i], s.session))
    && (!s.sh.fAllOk ==> Fails(s.session))
    && (Fails(s.session) ==>
          !s.sh.fAllOk || Fails(s.sh.queue) || exists i :: 0 <= i < |s.threads| && Carries(s.threads[i]))
  }

  /** A master that waits does so for checks in batches, or has been notified. */
  predicate MasterOk(s: State)
    requires |s.threads| >= 1
  {
    s.threads[MASTER].Waiting? ==> s.sh.queue == [] && (s.sh.nTodo > 0 || s.threads[MASTER].notified)
  }

  ghost predicate Inv(s: State) {
    |s.threads| >= 1 && Counts(s) && Verdict(s) && MasterOk(s)
  }

  function Initial(n: nat, batchSize: nat): (s: State) {
    State(Shared([], 0, 0, true, 0, batchSize), seq(n + 1, _ => Outside), [])
  }

  lemma InitialOk(n: nat, batchSize: nat)
    ensures Inv(Initial(n, batchSize))
  {
    var s := Initial(n, batchSize);
    TotalZero(s.threads, Load);
    TotalZero(s.threads, Asleep);
    TotalZero(s.threads, Inside);
  }

  lemma SensibleCounters(s: State)
    requires Counts(s)
    ensures CountersMakeSense(s)
  {
    forall i | 0 <= i < |s.threads| && s.threads[i].Waiting? ensures s.sh.nIdle >= 1 {
      TotalUpdate(s.threads, i, Outside, Asleep);
    }
  }

  /** Thread `i` holds the mutex: it is counted in `nTotal`, and otherwise as if it were outside. */
  ghost predicate Holding(s: State, i: nat) {
    && i < |s.threads| && s.threads[i].Outside?
    && Counts(s.(sh := s.sh.(nTotal := s.sh.nTotal - 1)))
    && Verdict(s)
    && (i != MASTER ==> MasterOk(s))
  }

  lemma FailsSplit(s: seq<Check>, k: nat)
    requires k <= |s|
    ensures Fails(s) <==> Fails(s[..k]) || Fails(s[k..])
  {
    assert forall i :: k <= i < |s| ==> s[i] == s[k..][i - k];
  }

  lemma FailsReversed(s: seq<Check>)
    ensures Fails(Reversed(s)) == Fails(s)
  {
    assert forall i :: 0 <= i < |s| ==> s[i] == Reversed(s)[|s| - 1 - i];
  }

  lemma TakeKeepsInv(s: State, i: nat)
    requires Holding(s, i) && s.sh.queue != [] && s.sh.nIdle >= 0 && s.sh.nTotal >= 0
    ensures Inv(Left(s, i, LoopHead(s.sh, i == MASTER)))
  {
    var r := LoopHead(s.sh, i == MASTER);
    var s' := Left(s, i, r);
    var t := s'.threads[i];
    TotalUpdate(s.threads, i, t, Load);
    TotalUpdate(s.threads, i, t, Asleep);
    TotalUpdate(s.threads, i, t, Inside);
    var left := |s'.sh.queue|;
    FailsSplit(s.sh.queue, left);
    FailsReversed(s.sh.queue[left..]);
    assert t.batch[0..] == t.batch;
    if Fails(s.session) && s.sh.fAllOk {
      if Fails(s.sh.queue[left..]) {
        assert Carries(s'.threads[i]);
      } else if !Fails(s'.sh.queue) {
        var j :| 0 <= j < |s.threads| && Carries(s.threads[j]);
        assert Carries(s'.threads[j]);
      }
    }
  }

  lemma BlockKeepsInv(s: State, i: nat)
    requires Holding(s, i) && s.sh.queue == [] && (i == MASTER ==> s.sh.nTodo != 0)
    ensures Inv(State(s.sh.(nIdle := s.sh.nIdle + 1), s.threads[i := Waiting(false)], s.session))
  {
    var s' := State(s.sh.(nIdle := s.sh.nIdle + 1), s.threads[i := Waiting(false)], s.session);
    TotalUpdate(s.threads, i, Waiting(false), Load);
    TotalUpdate(s.threads, i, Waiting(false), Asleep);
    TotalUpdate(s.threads, i, Waiting(false), Inside);
    if Fails(s.session) && s.sh.fAllOk {
      var j :| 0 <= j < |s.threads| && Carries(s.threads[j]);
      assert Carries(s'.threads[j]);
    }
  }

  /** When the master returns nothing is pending anywhere, and its verdict is that of the whole session. */
  lemma ReturnIsConjunction(s: State)
    requires Holding(s, MASTER) && s.sh.queue == [] && s.sh.nTodo == 0
    ensures forall j :: 0 <= j < |s.threads| ==> !s.threads[j].Working?
    ensures s.sh.fAllOk == AllOk(s.session)
  {
    TotalZero(s.threads, Load);
    forall j | 0 <= j < |s.threads| ensures !s.threads[j].Working? {
      assert Load(s.threads[j]) == 0;
      assert ThreadOk(s.threads[j], s.session);
    }
  }

  lemma LeaveKeepsInv(s: State, i: nat)
    requires Holding(s, i)
    ensures s.sh.nIdle >= 0 && s.sh.nTotal >= 0
    ensures Inv(Left(s, i, LoopHead(s.sh, i == MASTER)))
    ensures var o := LoopHead(s.sh, i == MASTER).1; o.Returned? ==> i == MASTER && o.result == AllOk(s.session)
  {
    if s.sh.queue != [] {
      TakeKeepsInv(s, i);
    } else if i == MASTER && s.sh.nTodo == 0 {
      ReturnIsConjunction(s);
      assert s.threads[i := Outside] == s.threads;
    } else {
      BlockKeepsInv(s, i);
    }
  }

  /** Thread `i` back in the mutex with its batch done. */
  function Returning(s: State, i: nat): (s': State)
    requires Enabled(s, Finish(i))
  {
    var batch, fOk := s.threads[i].batch, s.threads[i].fOk;
    var threads := if s.sh.nTodo == |batch| && i != MASTER then NotifyMaster(s.threads) else s.threads;
    State(CleanUp(s.sh, |batch|, fOk), threads[i := Outside], s.session)
  }

  lemma FinishCounts(s: State, i: nat)
    requires Inv(s) && Enabled(s, Finish(i))
    ensures var s' := Returning(s, i); Counts(s'.(sh := s'.sh.(nTotal := s'.sh.nTotal - 1)))
  {
    var s', t := Returning(s, i), s.threads[i];
    var notified := if s.sh.nTodo == |t.batch| && i != MASTER then NotifyMaster(s.threads) else s.threads;
    assert ThreadOk(t, s.session);
    TotalSame(s.threads, notified, Load);
    TotalSame(s.threads, notified, Asleep);
    TotalSame(s.threads, notified, Inside);
    TotalUpdate(notified, i, Outside, Load);
    TotalUpdate(notified, i, Outside, Asleep);
    TotalUpdate(notified, i, Outside, Inside);
  }

  lemma FinishHolds(s: State, i: nat)
    requires Inv(s) && Enabled(s, Finish(i))
    ensures Holding(Returning(s, i), i)
  {
    FinishCounts(s, i);
    TotalUpdate(s.threads, i, Outside, Load);
    hide Total;
    var s', t := Returning(s, i), s.threads[i];
    assert ThreadOk(t, s.session);
    assert t.batch[t.done..] == [];
    forall j | 0 <= j < |s'.threads| ensures ThreadOk(s'.threads[j], s'.session) {
      assert ThreadOk(s.threads[j], s.session);
    }
    if Fails(s.session) && s'.sh.fAllOk && !Fails(s.sh.queue) {
      var j :| 0 <= j < |s.threads| && Carries(s.threads[j]);
      assert Carries(s'.threads[j]);
    }
  }

  lemma EnterHolds(s: State, i: nat)
    requires Inv(s) && Enabled(s, Enter(i))
    ensures Holding(s.(sh := CleanUp(s.sh, 0, true)), i)
  {
    if Fails(s.session) && s.sh.fAllOk && !Fails(s.sh.queue) {
      var j :| 0 <= j < |s.threads| && Carries(s.threads[j]);
      assert Carries(s.threads[j]);
    }
  }

  lemma WakeHolds(s: State, i: nat)
    requires Inv(s) && Enabled(s, Wake(i))
    ensures Holding(State(s.sh.(nIdle := s.sh.nIdle - 1), s.threads[i := Outside], s.session), i)
  {
    var threads := s.threads[i := Outside];
    TotalUpdate(s.threads, i, Outside, Load);
    TotalUpdate(s.threads, i, Outside, Asleep);
    TotalUpdate(s.threads, i, Outside, Inside);
    if Fails(s.session) && s.sh.fAllOk && !Fails(s.sh.queue) {
      var j :| 0 <= j < |s.threads| && Carries(s.threads[j]);
      assert Carries(threads[j]);
    }
  }

  lemma ExecKeepsInv(s: State, i: nat)
    requires Inv(s) && Enabled(s, Exec(i)) && CountersMakeSense(s)
    ensures Inv(Step(s, Exec(i)))
  {
    var s' := Step(s, Exec(i));
    var t, t' := s.threads[i], s'.threads[i];
    TotalUpdate(s.threads, i, t', Load);
    TotalUpdate(s.threads, i, t', Asleep);
    TotalUpdate(s.threads, i, t', Inside);
    assert ThreadOk(t, s.session);
    assert t.batch[t.done..] == [t.batch[t.done]] + t'.batch[t'.done..];
    FailsSplit(t.batch[t.done..], 1);
    assert Carries(t) ==> Carries(t');
    if Fails(s.session) && s.sh.fAllOk && !Fails(s.sh.queue) {
      var j :| 0 <= j < |s.threads| && Carries(s.threads[j]);
      assert Carries(s'.threads[j]);
    }
  }

  lemma AddKeepsInv(s: State, checks: seq<Check>, wakes: nat)
    requires Inv(s) && Enabled(s, Add(checks, wakes)) && CountersMakeSense(s)
    ensures Inv(Step(s, Add(checks, wakes)))
  {
    var s' := Step(s, Add(checks, wakes));
    TotalSame(s.threads, s'.threads, Load);
    TotalSame(s.threads, s'.threads, Asleep);
    TotalSame(s.threads, s'.threads, Inside);
    FailsSplit(s'.session, |s.session|);
    FailsSplit(s'.sh.queue, |s.sh.queue|);
    assert s'.session[..|s.session|] == s.session && s'.session[|s.session|..] == checks;
    assert s'.sh.queue[..|s.sh.queue|] == s.sh.queue && s'.sh.queue[|s.sh.queue|..] == checks;
    forall j | 0 <= j < |s'.threads| ensures ThreadOk(s'.threads[j], s'.session) {
      assert ThreadOk(s.threads[j], s.session);
    }
    if Fails(s.session) && s.sh.fAllOk && !Fails(s.sh.queue) {
      var j :| 0 <= j < |s.threads| && Carries(s.threads[j]);
      assert Carries(s'.threads[j]);
    }
  }

  /** Every step of every thread keeps the invariant, and when the master returns from `Wait` its result is
      the conjunction of all checks added since it last returned, skipped ones included. */
  lemma StepKeepsInv(s: State, a: Action)
    requires Inv(s) && Enabled(s, a)
    ensures CountersMakeSense(s) && Inv(Step(s, a))
    ensures a.Enter? || a.Finish? || a.Wake? ==>
              var o := Section(s, a).1; o.Returned? ==> a.i == MASTER && o.result == AllOk(s.session)
  {
    SensibleCounters(s);
    match a
    case Exec(i) => ExecKeepsInv(s, i);
    case Add(checks, wakes) => AddKeepsInv(s, checks, wakes);
    case Enter(i) => EnterKeepsInv(s, i);
    case Wake(i) => WakeKeepsInv(s, i);
    case Finish(i) => FinishKeepsInv(s, i);
  }

  lemma EnterKeepsInv(s: State, i: nat)
    requires Inv(s) && Enabled(s, Enter(i)) && CountersMakeSense(s)
    ensures Inv(Step(s, Enter(i)))
    ensures var o := Section(s, Enter(i)).1; o.Returned? ==> i == MASTER && o.result == AllOk(s.session)
  {
    EnterHolds(s, i);
    hide LoopHead;
    hide Inv;
    hide Holding;
    var h := s.(sh := CleanUp(s.sh, 0, true));
    LeaveKeepsInv(h, i);
    assert s.threads[i := Outside] == s.threads;
    LeftForgets(s, i, h.sh, Section(s, Enter(i)));
  }

  lemma WakeKeepsInv(s: State, i: nat)
    requires Inv(s) && Enabled(s, Wake(i)) && CountersMakeSense(s)
    ensures Inv(Step(s, Wake(i)))
    ensures var o := Section(s, Wake(i)).1; o.Returned? ==> i == MASTER && o.result == AllOk(s.session)
  {
    WakeHolds(s, i);
    hide LoopHead;
    hide Inv;
    hide Holding;
    var h := State(s.sh.(nIdle := s.sh.nIdle - 1), s.threads[i := Outside], s.session);
    LeaveKeepsInv(h, i);
    LeftForgets(s, i, h.sh, Section(s, Wake(i)));
  }

  lemma FinishKeepsInv(s: State, i: nat)
    requires Inv(s) && Enabled(s, Finish(i)) && CountersMakeSense(s)
    ensures Inv(Step(s, Finish(i)))
    ensures var o := Section(s, Finish(i)).1; o.Returned? ==> i == MASTER && o.result == AllOk(s.session)
  {
    FinishHolds(s, i);
    hide LoopHead;
    hide Inv;
    hide Holding;
    LeaveKeepsInv(Returning(s, i), i);
    var last := s.sh.nTodo == |s.threads[i].batch| && i != MASTER;
    var n := if last then s.(threads := NotifyMaster(s.threads)) else s;
    LeftForgets(n, i, Returning(s, i).sh, Section(s, Finish(i)));
  }

  /** What a thread was when it took the mutex does not matter to how it leaves. */
  lemma LeftForgets(s: State, i: nat, sh: Shared, r: (Shared, Outcome))
    requires i < |s.threads|
    ensures Left(State(sh, s.threads[i := Outside], s.session), i, r) == Left(s, i, r)
  {
    assert forall t: Thread {:trigger s.threads[i := t]} :: s.threads[i := Outside][i := t] == s.threads[i := t];
  }

  /** From a state with impossible counters anything would be reachable; there is none. */
  ghost predicate Run(s: State, actions: seq<Action>, s': State)
    decreases |actions|
  {
    if actions == [] then s == s'
    else Enabled(s, actions[0]) && (CountersMakeSense(s) ==> Run(Step(s, actions[0]), actions[1..], s'))
  }

  /** In every state that any interleaving reaches: the counters are exact; the threads counted as not idle
      are those holding a batch; a new controller finds the queue idle unless checks were added since the
      last `Wait`; and a master that waits has been notified or some worker holds a batch for it. */
  lemma {:induction false} ReachableStates(n: nat, batchSize: nat, s: State, actions: seq<Action>, s': State)
    requires Run(s, actions, s') && (s == Initial(n, batchSize) || Inv(s))
    ensures Inv(s')
    ensures s'.sh.nTodo == |s'.sh.queue| + Total(s'.threads, Load)
    ensures s'.sh.nTotal - s'.sh.nIdle == Total(s'.threads, Busy)
    ensures s'.session == [] && s'.threads[MASTER].Outside? ==> Idle(s'.sh)
    ensures s'.threads[MASTER].Waiting? ==>
              s'.threads[MASTER].notified || exists i :: 1 <= i < |s'.threads| && s'.threads[i].Working?
    decreases |actions|
  {
    InitialOk(n, batchSize);
    if actions != [] {
      StepKeepsInv(s, actions[0]);
      ReachableStates(n, batchSize, Step(s, actions[0]), actions[1..], s');
    } else {
      TotalZero(s.threads, Load);
      AwakeIsBusy(s.threads);
      if s.session == [] {
        NoSessionNoWork(s);
      }
    }
  }

  lemma NoSessionNoWork(s: State)
    requires Inv(s) && s.session == []
    ensures s.sh.queue == [] && s.sh.fAllOk && s.sh.nTodo == 0 && s.sh.nTotal == s.sh.nIdle
  {
    forall j | 0 <= j < |s.threads| ensures Load(s.threads[j]) == 0 && Busy(s.threads[j]) == 0 {
      assert ThreadOk(s.threads[j], s.session);
      if s.threads[j].Working? {
        NothingWithinNothing(s.threads[j].batch);
      }
    }
    NothingWithinNothing(s.sh.queue);
    TotalZero(s.threads, Load);
    TotalZero(s.threads, Busy);
    AwakeIsBusy(s.threads);
  }

  lemma NothingWithinNothing(s: seq<Check>)
    ensures s != [] ==> !Within(s, [])
  {
    if s != [] {
      assert s[0] !in [];
    }
  }

  lemma {:induction false} AwakeIsBusy(ts: seq<Thread>)
    ensures Total(ts, Inside) == Total(ts, Asleep) + Total(ts, Busy)
  {
    if ts != [] {
      AwakeIsBusy(ts[..|ts| - 1]);
    }
  }

  /** Idle is what the counters say exactly when nothing is queued, no thread holds a batch, and every check added
      since the last `Wait` has passed. */
  lemma IdleMeansDone(s: State)
    requires Inv(s)
    ensures Idle(s.sh) <==>
              s.sh.queue == [] && (forall i :: 0 <= i < |s.threads| ==> !s.threads[i].Working?) && AllOk(s.session)
  {
    TotalZero(s.threads, Load);
    TotalZero(s.threads, Busy);
    AwakeIsBusy(s.threads);
    forall i | 0 <= i < |s.threads| ensures Load(s.threads[i]) == 0 <==> !s.threads[i].Working? {
      assert ThreadOk(s.threads[i], s.session);
    }
    forall i | 0 <= i < |s.threads| ensures Busy(s.threads[i]) == 0 <==> !s.threads[i].Working? {
    }
  }

  // ---- sessions end

  /** What a thread has ahead of it before it can only wait. */
  function Ahead(t: Thread): nat {
    match t
    case Outside => 2
    case Waiting(_) => 0
    case Working(batch, done, _) => if done <= |batch| then 1 + |batch| - done else 0
  }

  /** The steps left while no checks are added, at most. */
  function Remaining(s: State): nat {
    3 * |s.sh.queue| + Total(s.threads, Ahead)
  }

  predicate Returns(s: State, a: Action)
    requires Enabled(s, a) && CountersMakeSense(s)
  {
    (a.Enter? || a.Finish? || a.Wake?) && Section(s, a).1.Returned?
  }

  /** A thread that wakes and finds nothing to do. */
  predicate Idles(s: State, a: Action)
    requires Enabled(s, a) && CountersMakeSense(s)
  {
    a.Wake? && Section(s, a).1.Blocked?
  }

  lemma LeftRemaining(s: State, i: nat, sh: Shared)
    requires i < |s.threads| && sh.nIdle >= 0 && sh.nTotal >= 0 && sh.queue == s.sh.queue
    ensures var r := LoopHead(sh, i == MASTER); var w := Left(s, i, r);
            && (r.1.Blocked? ==> Remaining(w) == Remaining(s) - Ahead(s.threads[i]))
            && (r.1.Took? ==> Remaining(w) < Remaining(s) - Ahead(s.threads[i]))
  {
    var r := LoopHead(sh, i == MASTER);
    var w := Left(s, i, r);
    TotalUpdate(s.threads, i, w.threads[i], Ahead);
  }

  /** While no checks are added, every step that is not a return or an idle wake-up brings the end nearer, and an
      idle wake-up does not put it off. */
  lemma StepAdvances(s: State, a: Action)
    requires Inv(s) && Enabled(s, a) && !a.Add?
    ensures CountersMakeSense(s)
    ensures Returns(s, a) ||
            if Idles(s, a) then Remaining(Step(s, a)) == Remaining(s) else Remaining(Step(s, a)) < Remaining(s)
  {
    SensibleCounters(s);
    match a
    case Exec(i) =>
      TotalUpdate(s.threads, i, Step(s, a).threads[i], Ahead);
    case Enter(i) =>
      LeftRemaining(s, i, CleanUp(s.sh, 0, true));
    case Wake(i) =>
      LeftRemaining(s, i, s.sh.(nIdle := s.sh.nIdle - 1));
    case Finish(i) =>
      assert ThreadOk(s.threads[i], s.session);
      var last := s.sh.nTodo == |s.threads[i].batch| && i != MASTER;
      var n := if last then s.(threads := NotifyMaster(s.threads)) else s;
      TotalSame(s.threads, n.threads, Ahead);
      LeftRemaining(n, i, CleanUp(s.sh, |s.threads[i].batch|, s.threads[i].fOk));
  }

  /** A master inside `Wait` is never stuck: some thread already inside has a step, and not one that needs a wake-up for
      no reason, that returns or brings the end nearer. */
  lemma NeverStuck(s: State)
    requires Inv(s) && !s.threads[MASTER].Outside?
    ensures CountersMakeSense(s)
    ensures exists a :: && Enabled(s, a) && !a.Add? && !a.Enter? && (a.Wake? ==> s.threads[a.i].notified)
                        && (Returns(s, a) || Remaining(Step(s, a)) < Remaining(s))
  {
    SensibleCounters(s);
    if s.threads[MASTER].Waiting? && s.sh.nTodo == 0 {
      assert Enabled(s, Wake(MASTER)) && Returns(s, Wake(MASTER));
    } else {
      TotalZero(s.threads, Load);
      var i :| 0 <= i < |s.threads| && s.threads[i].Working?;
      assert ThreadOk(s.threads[i], s.session);
      if s.threads[i].done < |s.threads[i].batch| {
        StepAdvances(s, Exec(i));
      } else {
        StepAdvances(s, Finish(i));
      }
    }
  }

  /** A run without new checks in which the master does not return, with `n` steps other than idle wake-ups. */
  ghost predicate Quiet(s: State, actions: seq<Action>, n: nat)
    decreases |actions|
  {
    if actions == [] then n == 0
    else
      var a := actions[0];
      Enabled(s, a) && !a.Add? && (CountersMakeSense(s) ==>
        !Returns(s, a) &&
        if Idles(s, a) then Quiet(Step(s, a), actions[1..], n) else n > 0 && Quiet(Step(s, a), actions[1..], n - 1))
  }

  /** A session ends: however the threads interleave, once no checks are added there are at most `Remaining` steps,
      idle wake-ups aside, before the master returns. */
  lemma {:induction false} SessionsEnd(s: State, actions: seq<Action>, n: nat)
    requires Inv(s) && Quiet(s, actions, n)
    ensures n <= Remaining(s)
    decreases |actions|
  {
    hide Inv;
    hide Remaining;
    hide Returns;
    hide Idles;
    if actions != [] {
      var a := actions[0];
      StepKeepsInv(s, a);
      StepAdvances(s, a);
      if Idles(s, a) {
        SessionsEnd(Step(s, a), actions[1..], n);
      } else {
        SessionsEnd(Step(s, a), actions[1..], n - 1);
      }
    }
  }
}
