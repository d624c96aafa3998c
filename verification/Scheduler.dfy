/** Ready queue, wait queues and the two-way bookkeeping between a queue and the `owners` list of
    each process waiting in it. Code between two scheduling points is one atomic step. */
module Scheduler {

  import opened Basics

  /** Wait queues: one per process for waitpid, and any number of others. */
  datatype Queue = WaitOf(pid: Pid) | Channel(id: nat)

  datatype State = Starting | Running | Finished | Sleeping

  datatype Proc = Proc(state: State, owners: seq<Queue>, interrupted: bool)

  datatype Kernel = Kernel(procs: map<Pid, Proc>, queues: map<Queue, seq<Pid>>, ready: seq<Pid>, current: Pid,
      idle: Pid)

  /** PROCESS_IS_SCHEDULABLE */
  predicate Runnable(s: State) {
    s.Starting? || s.Running?
  }

  function Waiters(k: Kernel, q: Queue): seq<Pid> {
    if q in k.queues then k.queues[q] else []
  }

  function Owners(k: Kernel, p: Pid): seq<Queue> {
    if p in k.procs then k.procs[p].owners else []
  }

  predicate IsRunnable(k: Kernel, p: Pid) {
    p in k.procs && Runnable(k.procs[p].state)
  }

  predicate IsSleeping(k: Kernel, p: Pid) {
    p in k.procs && k.procs[p].state.Sleeping?
  }

  // ---------------------------------------------------------------- list operations

  /** list_delete_element: removes the first occurrence, if any. */
  function Delete<T(==)>(s: seq<T>, x: T): (r: seq<T>)
    ensures multiset(r) == multiset(s) - multiset{x} && |r| <= |s|
  {
    if s == [] then []
    else if s[0] == x then
      assert s == [s[0]] + s[1..];
      s[1..]
    else
      assert s == [s[0]] + s[1..];
      [s[0]] + Delete(s[1..], x)
  }

  function SetProc(k: Kernel, p: Pid, pr: Proc): Kernel {
    Kernel(k.procs[p := pr], k.queues, k.ready, k.current, k.idle)
  }

  function SetQueue(k: Kernel, q: Queue, w: seq<Pid>): Kernel {
    Kernel(k.procs, k.queues[q := w], k.ready, k.current, k.idle)
  }

  // ---------------------------------------------------------------- kernel functions

  function OwnBlock(k: Kernel, p: Pid, q: Queue): Kernel
    requires p in k.procs
  {
    var pr := k.procs[p];
    SetProc(SetQueue(k, q, Waiters(k, q) + [p]), p, Proc(pr.state, pr.owners + [q], pr.interrupted))
  }

  /** release_block and the loop of invalidate_locks: empties the owners list from the back. */
  function Invalidate(k: Kernel, p: Pid): (r: Kernel)
    requires p in k.procs
    ensures p in r.procs && r.ready == k.ready && r.current == k.current && r.idle == k.idle
    decreases |k.procs[p].owners|
  {
    if k.procs[p].owners == [] then k else Invalidate(DropLast(k, p), p)
  }

  /** One turn of that loop: the last owner queue forgets the process. */
  function DropLast(k: Kernel, p: Pid): (r: Kernel)
    requires p in k.procs && k.procs[p].owners != []
    ensures r.procs == k.procs[p := Proc(k.procs[p].state, k.procs[p].owners[..|k.procs[p].owners| - 1],
        k.procs[p].interrupted)]
    ensures r.ready == k.ready && r.current == k.current && r.idle == k.idle
  {
    var pr := k.procs[p];
    var q := pr.owners[|pr.owners| - 1];
    SetQueue(SetProc(k, p, Proc(pr.state, pr.owners[..|pr.owners| - 1], pr.interrupted)), q, Delete(Waiters(k, q), p))
  }

  /** mark_ready: an outstanding lock means the sleep was interrupted. */
  function MarkReady(k: Kernel, p: Pid): (r: Kernel)
    requires p in k.procs
  {
    var pr := k.procs[p];
    Enqueue(Invalidate(SetProc(k, p, Proc(Running, pr.owners, pr.interrupted || pr.owners != [])), p), p)
  }

  function Enqueue(k: Kernel, p: Pid): Kernel {
    Kernel(k.procs, k.queues, k.ready + [p], k.current, k.idle)
  }

  lemma DropShrinks(k: Kernel, p: Pid, q: Queue)
    requires p in k.procs && k.procs[p].owners != []
    ensures |Waiters(DropLast(k, p), q)| <= |Waiters(k, q)|
  {
  }

  lemma {:induction false} InvalidateShrinks(k: Kernel, p: Pid, q: Queue)
    requires p in k.procs
    ensures |Waiters(Invalidate(k, p), q)| <= |Waiters(k, q)|
    decreases |k.procs[p].owners|
  {
    hide DropLast, Waiters;
    if k.procs[p].owners != [] {
      DropShrinks(k, p, q);
      InvalidateShrinks(DropLast(k, p), p, q);
    }
  }

  lemma MarkReadyShrinks(k: Kernel, p: Pid, q: Queue)
    requires p in k.procs
    ensures |Waiters(MarkReady(k, p), q)| <= |Waiters(k, q)|
  {
    hide Invalidate;
    var pr := k.procs[p];
    InvalidateShrinks(SetProc(k, p, Proc(Running, pr.owners, pr.interrupted || pr.owners != [])), p, q);
  }

  function LastWaiter(k: Kernel, q: Queue): Pid
    requires Waiters(k, q) != []
  {
    Waiters(k, q)[|Waiters(k, q)| - 1]
  }

  /** Takes the last waiter out of `q`, on both sides. */
  function PopWaiter(k: Kernel, q: Queue): (r: Kernel)
    requires Waiters(k, q) != []
    ensures Waiters(r, q) == Waiters(k, q)[..|Waiters(k, q)| - 1]
  {
    var w := Waiters(k, q);
    var p := w[|w| - 1];
    var r := SetQueue(k, q, w[..|w| - 1]);
    if p in k.procs then
      var pr := k.procs[p];
      SetProc(r, p, Proc(pr.state, Delete(pr.owners, q), pr.interrupted))
    else r
  }

  /** wakeup_queue_single: from the back, up to the first waiter that is neither finished nor ready. */
  function WakeSingle(k: Kernel, q: Queue): (r: Kernel)
    ensures Waiters(k, q) != [] ==> |Waiters(r, q)| < |Waiters(k, q)|
    decreases |Waiters(k, q)|
  {
    if Waiters(k, q) == [] then k
    else
      var p := LastWaiter(k, q);
      var r := PopWaiter(k, q);
      if IsSleeping(r, p) then
        MarkReadyShrinks(r, p, q);
        MarkReady(r, p)
      else WakeSingle(r, q)
  }

  /** wakeup_queue_single_select: the waiter first leaves every queue it selected on. */
  function WakeSingleSelect(k: Kernel, q: Queue): (r: Kernel)
    ensures Waiters(k, q) != [] ==> |Waiters(r, q)| < |Waiters(k, q)|
    decreases |Waiters(k, q)|
  {
    if Waiters(k, q) == [] then k
    else
      var p := LastWaiter(k, q);
      var r0 := PopWaiter(k, q);
      var r := if p in r0.procs then
                 InvalidateShrinks(r0, p, q);
                 Invalidate(r0, p)
               else r0;
      if IsSleeping(r, p) then
        MarkReadyShrinks(r, p, q);
        MarkReady(r, p)
      else WakeSingleSelect(r, q)
  }

  function WakeAll(k: Kernel, q: Queue, select: bool): Kernel
    decreases |Waiters(k, q)|
  {
    if Waiters(k, q) == [] then k
    else WakeAll(if select then WakeSingleSelect(k, q) else WakeSingle(k, q), q, select)
  }

  /** switch(): the first schedulable process of the ready queue, or idle. */
  function Switch(k: Kernel): Kernel
    requires k.idle in k.procs
    decreases |k.ready|
  {
    if k.ready == [] then Dispatch(k, k.idle)
    else
      var r := Kernel(k.procs, k.queues, k.ready[1..], k.current, k.idle);
      if IsRunnable(r, k.ready[0]) then Dispatch(r, k.ready[0]) else Switch(r)
  }

  function Dispatch(k: Kernel, p: Pid): Kernel
    requires p in k.procs
  {
    var pr := k.procs[p];
    Kernel(k.procs[p := Proc(Running, pr.owners, pr.interrupted)], k.queues, k.ready, p, k.idle)
  }

  function Yield(k: Kernel): Kernel
    requires k.idle in k.procs
  {
    if k.current != k.idle && IsRunnable(k, k.current) then
      var r := MarkReady(k, k.current);
      if r.idle in r.procs then Switch(r) else r
    else Switch(k)
  }

  /** sleep_on_queue of the current process, up to and including its yield. */
  function Sleep(k: Kernel, q: Queue): Kernel
    requires k.current in k.procs && k.idle in k.procs
  {
    Yield(FallAsleep(OwnBlock(k, k.current, q)))
  }

  /** The current process stops being schedulable and forgets an earlier interruption. */
  function FallAsleep(k: Kernel): Kernel
    requires k.current in k.procs
  {
    SetProc(k, k.current, Proc(Sleeping, k.procs[k.current].owners, false))
  }

  /** The queue registrations of select(): a queue that already holds the process is skipped. */
  function OwnEach(k: Kernel, p: Pid, qs: seq<Queue>): (r: Kernel)
    requires p in k.procs
    ensures p in r.procs && r.procs.Keys == k.procs.Keys && r.current == k.current && r.idle == k.idle
    ensures forall q: Queue :: q in r.procs[p].owners ==> q in k.procs[p].owners || q in qs
    decreases |qs|
  {
    if qs == [] then k
    else OwnEach(if p in Waiters(k, qs[0]) then k else OwnBlock(k, p, qs[0]), p, qs[1..])
  }

  function Select(k: Kernel, qs: seq<Queue>): Kernel
    requires k.current in k.procs && k.idle in k.procs
  {
    Yield(FallAsleep(OwnEach(k, k.current, qs)))
  }

  /** A new process, ready to run. */
  function Fork(k: Kernel, child: Pid): Kernel
    requires k.current in k.procs
  {
    MarkReady(SetProc(k, child, Proc(Starting, [], k.procs[k.current].interrupted)), child)
  }

  /** wakeup_on_signal */
  function Signal(k: Kernel, p: Pid): Kernel
    requires p in k.procs
  {
    if p != k.current && !IsRunnable(k, p) then MarkReady(k, p) else k
  }

  /** sys_kill: a finished process is left alone. */
  function Kill(k: Kernel, p: Pid): Kernel {
    if p in k.procs && !k.procs[p].state.Finished? then Signal(k, p) else k
  }

  /** exit() of the current process: wake the parent out of waitpid, signal it, and switch away. */
  function Exit(k: Kernel, parent: Pid): Kernel
    requires k.current in k.procs
  {
    var pr := k.procs[k.current];
    var k1 := SetProc(k, k.current, Proc(Finished, pr.owners, pr.interrupted));
    var k2 := WakeAll(k1, WaitOf(parent), false);
    var k3 := if parent in k2.procs then Signal(k2, parent) else k2;
    var k4 := if k3.current in k3.procs then Invalidate(k3, k3.current) else k3;
    if k4.idle in k4.procs then Switch(k4) else k4
  }

  /** destroy(): the process leaves the tables. */
  function Destroy(k: Kernel, p: Pid): Kernel {
    Kernel(k.procs - {p}, k.queues, k.ready, k.current, k.idle)
  }

  // ---------------------------------------------------------------- invariants

  /** The multiplicity of a process in a queue is that queue's multiplicity in its owners list. */
  ghost predicate Reciprocal(k: Kernel) {
    forall p: Pid, q: Queue :: Matched(k, p, q)
  }

  ghost predicate Matched(k: Kernel, p: Pid, q: Queue) {
    multiset(Waiters(k, q))[p] == multiset(Owners(k, p))[q]
  }

  /** Only sleeping processes wait in queues. */
  ghost predicate OnlySleepersWait(k: Kernel) {
    forall p: Pid :: p in k.procs && k.procs[p].owners != [] ==> k.procs[p].state.Sleeping?
  }

  /** The ready queue holds each runnable process outside `apart` exactly once, and nothing else. */
  ghost predicate ReadyExact(k: Kernel, apart: set<Pid>) {
    forall p: Pid :: ReadyCount(k, apart, p)
  }

  ghost predicate ReadyCount(k: Kernel, apart: set<Pid>, p: Pid) {
    multiset(k.ready)[p] == if IsRunnable(k, p) && p !in apart then 1 else 0
  }

  ghost predicate Base(k: Kernel) {
    && IsRunnable(k, k.idle) && k.current in k.procs
    && Reciprocal(k) && OnlySleepersWait(k)
  }

  /** Between two atomic steps. */
  ghost predicate Inv(k: Kernel) {
    Base(k) && IsRunnable(k, k.current) && ReadyExact(k, {k.current, k.idle})
  }

  // ---------------------------------------------------------------- preservation

  lemma MatchedAt(k: Kernel, p: Pid, q: Queue)
    requires Reciprocal(k)
    ensures multiset(Waiters(k, q))[p] == multiset(Owners(k, p))[q]
  {
    assert Matched(k, p, q);
  }

  /** A change of one entry in one queue and one owners list keeps the lists in step if the two
      multiplicities still agree. */
  lemma OnePair(k: Kernel, r: Kernel, p: Pid, q: Queue)
    requires Reciprocal(k) && Matched(r, p, q)
    requires forall p': Pid :: p' != p ==> Owners(r, p') == Owners(k, p')
    requires forall q': Queue :: q' != q ==> Waiters(r, q') == Waiters(k, q')
    requires forall q': Queue :: q' != q ==> multiset(Owners(r, p))[q'] == multiset(Owners(k, p))[q']
    requires forall p': Pid :: p' != p ==> multiset(Waiters(r, q))[p'] == multiset(Waiters(k, q))[p']
    ensures Reciprocal(r)
  {
    hide Waiters, Owners;
    forall p': Pid, q': Queue ensures Matched(r, p', q') {
      assert Matched(k, p', q');
    }
  }

  lemma LastOf<T>(s: seq<T>)
    requires s != []
    ensures multiset(s) == multiset(s[..|s| - 1]) + multiset{s[|s| - 1]}
  {
    assert s == s[..|s| - 1] + [s[|s| - 1]];
  }

  lemma DropKeepsReciprocal(k: Kernel, p: Pid)
    requires Reciprocal(k) && p in k.procs && k.procs[p].owners != []
    ensures Reciprocal(DropLast(k, p))
  {
    hide Delete, Reciprocal;
    var os := k.procs[p].owners;
    var q := os[|os| - 1];
    LastOf(os);
    MatchedAt(k, p, q);
    OnePair(k, DropLast(k, p), p, q);
  }

  lemma {:induction false} InvalidateKeeps(k: Kernel, p: Pid)
    requires Reciprocal(k) && p in k.procs
    ensures Reciprocal(Invalidate(k, p))
    ensures Invalidate(k, p).procs == k.procs[p := Proc(k.procs[p].state, [], k.procs[p].interrupted)]
    decreases |k.procs[p].owners|
  {
    hide DropLast, Reciprocal;
    if k.procs[p].owners != [] {
      DropKeepsReciprocal(k, p);
      InvalidateKeeps(DropLast(k, p), p);
    }
  }

  /** mark_ready: the process leaves every queue and joins the ready queue. */
  lemma MarkReadySpec(k: Kernel, p: Pid)
    requires Reciprocal(k) && p in k.procs
    ensures var r := MarkReady(k, p); var pr := k.procs[p];
            && Reciprocal(r) && r.ready == k.ready + [p] && r.current == k.current && r.idle == k.idle
            && r.procs == k.procs[p := Proc(Running, [], pr.interrupted || pr.owners != [])]
  {
    hide Invalidate, Reciprocal;
    var pr := k.procs[p];
    var k1 := SetProc(k, p, Proc(Running, pr.owners, pr.interrupted || pr.owners != []));
    SameLists(k, k1);
    InvalidateKeeps(k1, p);
    SameLists(Invalidate(k1, p), MarkReady(k, p));
  }

  lemma SameLists(k: Kernel, r: Kernel)
    requires Reciprocal(k) && r.queues == k.queues
    requires forall p: Pid :: Owners(r, p) == Owners(k, p)
    ensures Reciprocal(r)
  {
    forall p: Pid, q: Queue ensures Matched(r, p, q) {
      assert Matched(k, p, q);
    }
  }

  /** A process woken up: everything the three facts need to know about the new state. */
  ghost predicate Woken(k: Kernel, r: Kernel, p: Pid) {
    && Reciprocal(r) && p in k.procs
    && r.ready == k.ready + [p] && r.current == k.current && r.idle == k.idle
    && exists i :: r.procs == k.procs[p := Proc(Running, [], i)]
  }

  lemma WokenKeeps(k: Kernel, r: Kernel, p: Pid, apart: set<Pid>)
    requires Base(k) && ReadyExact(k, apart) && Woken(k, r, p) && !IsRunnable(k, p) && p !in apart
    ensures Base(r) && ReadyExact(r, apart)
    ensures IsRunnable(r, p)
    ensures forall p': Pid :: p' != p && p' in k.procs ==> p' in r.procs && r.procs[p'] == k.procs[p']
  {
    hide Reciprocal;
    forall p': Pid ensures ReadyCount(r, apart, p') {
      assert ReadyCount(k, apart, p');
    }
  }

  lemma PopKeepsReciprocal(k: Kernel, q: Queue)
    requires Reciprocal(k) && Waiters(k, q) != []
    ensures Reciprocal(PopWaiter(k, q))
    ensures LastWaiter(k, q) in k.procs && q in k.procs[LastWaiter(k, q)].owners
  {
    hide Delete, Reciprocal;
    var w := Waiters(k, q);
    LastOf(w);
    var p := LastWaiter(k, q);
    MatchedAt(k, p, q);
    OnePair(k, PopWaiter(k, q), p, q);
  }

  /** wakeup_queue_single wakes exactly the last waiter. */
  lemma WakeSingleSpec(k: Kernel, q: Queue)
    requires Base(k) && Waiters(k, q) != []
    ensures Woken(k, WakeSingle(k, q), LastWaiter(k, q)) && IsSleeping(k, LastWaiter(k, q))
    ensures var p := LastWaiter(k, q);
            WakeSingle(k, q).procs[p].interrupted == (k.procs[p].interrupted || |k.procs[p].owners| > 1)
  {
    hide Reciprocal, Delete, MarkReady;
    var p := LastWaiter(k, q);
    PopKeepsReciprocal(k, q);
    DeleteLength(k.procs[p].owners, q);
    var r := PopWaiter(k, q);
    MarkReadySpec(r, p);
    var i := r.procs[p].interrupted || r.procs[p].owners != [];
    assert MarkReady(r, p).procs == k.procs[p := Proc(Running, [], i)];
  }

  lemma {:induction false} DeleteLength<T>(s: seq<T>, x: T)
    requires x in s
    ensures |Delete(s, x)| == |s| - 1
  {
    if s[0] != x {
      DeleteLength(s[1..], x);
    }
  }

  /** The select form releases the other queues first, so the wake-up does not count as an interruption. */
  lemma WakeSingleSelectSpec(k: Kernel, q: Queue)
    requires Base(k) && Waiters(k, q) != []
    ensures Woken(k, WakeSingleSelect(k, q), LastWaiter(k, q)) && IsSleeping(k, LastWaiter(k, q))
    ensures WakeSingleSelect(k, q).procs[LastWaiter(k, q)].interrupted == k.procs[LastWaiter(k, q)].interrupted
  {
    hide Reciprocal, Delete, MarkReady, Invalidate;
    var p := LastWaiter(k, q);
    PopKeepsReciprocal(k, q);
    var r0 := PopWaiter(k, q);
    InvalidateKeeps(r0, p);
    var r := Invalidate(r0, p);
    MarkReadySpec(r, p);
    assert MarkReady(r, p).procs == k.procs[p := Proc(Running, [], r.procs[p].interrupted)];
  }

  /** Waking a whole queue: it ends empty, its waiters are ready, and nobody else is touched. */
  ghost predicate AllWoken(k: Kernel, r: Kernel, q: Queue) {
    && r.current == k.current && r.idle == k.idle && k.ready <= r.ready && r.procs.Keys == k.procs.Keys
    && Waiters(r, q) == []
    && forall p: Pid :: p in k.procs ==> Touched(k, r, q, p)
  }

  ghost predicate Touched(k: Kernel, r: Kernel, q: Queue, p: Pid)
    requires p in k.procs
  {
    p in r.procs && if p in Waiters(k, q) then IsRunnable(r, p) else r.procs[p] == k.procs[p]
  }

  /** After one wake-up the remaining waiters of the queue are the others, as before. */
  lemma RemainingWaiters(k: Kernel, r: Kernel, q: Queue, p: Pid, p': Pid)
    requires Reciprocal(k) && Woken(k, r, p)
    ensures p' in Waiters(r, q) <==> p' != p && p' in Waiters(k, q)
  {
    hide Reciprocal;
    MatchedAt(k, p', q);
    MatchedAt(r, p', q);
  }

  lemma {:induction false} WakeAllSpec(k: Kernel, q: Queue, select: bool, apart: set<Pid>)
    requires Base(k) && ReadyExact(k, apart) && forall p: Pid :: p in apart ==> !IsSleeping(k, p)
    ensures var r := WakeAll(k, q, select); Base(r) && ReadyExact(r, apart) && AllWoken(k, r, q)
    decreases |Waiters(k, q)|
  {
    hide Base, ReadyExact, WakeSingle, WakeSingleSelect, Woken, Waiters;
    if Waiters(k, q) != [] {
      var r := if select then WakeSingleSelect(k, q) else WakeSingle(k, q);
      var p := LastWaiter(k, q);
      if select { WakeSingleSelectSpec(k, q); } else { WakeSingleSpec(k, q); }
      WokenKeeps(k, r, p, apart);
      WokenFacts(k, r, p);
      WakeAllSpec(r, q, select, apart);
      var z := WakeAll(r, q, select);
      BaseReciprocal(k);
      forall p': Pid | p' in k.procs ensures Touched(k, z, q, p') {
        assert Touched(r, z, q, p');
        RemainingWaiters(k, r, q, p, p');
      }
    }
  }

  lemma BaseReciprocal(k: Kernel)
    requires Base(k)
    ensures Reciprocal(k)
  {
  }

  lemma WokenFacts(k: Kernel, r: Kernel, p: Pid)
    requires Woken(k, r, p)
    ensures r.procs.Keys == k.procs.Keys && k.ready <= r.ready && r.current == k.current && r.idle == k.idle
    ensures IsRunnable(r, p) && forall p': Pid :: !IsSleeping(k, p') ==> !IsSleeping(r, p')
  {
  }

  // ---------------------------------------------------------------- switching

  lemma DispatchSame(k: Kernel, p: Pid)
    requires Reciprocal(k) && p in k.procs
    ensures Reciprocal(Dispatch(k, p))
  {
    SameLists(k, Dispatch(k, p));
  }

  ghost predicate Switched(k: Kernel, r: Kernel) {
    && r.queues == k.queues && r.idle == k.idle
    && r.current == (if k.ready == [] then k.idle else k.ready[0])
    && r.ready == (if k.ready == [] then [] else k.ready[1..])
    && r.current in k.procs && IsRunnable(k, r.current)
    && r.procs == k.procs[r.current := Proc(Running, [], k.procs[r.current].interrupted)]
  }

  /** switch() takes the front of the ready queue, or idle when it is empty. */
  lemma SwitchSpec(k: Kernel)
    requires Base(k) && ReadyExact(k, {k.idle})
    ensures Inv(Switch(k)) && Switched(k, Switch(k))
  {
    hide Reciprocal;
    var r := Switch(k);
    if k.ready == [] {
      DispatchSame(k, k.idle);
      forall p: Pid ensures ReadyCount(r, {r.current, r.idle}, p) {
        assert ReadyCount(k, {k.idle}, p);
      }
    } else {
      var f := k.ready[0];
      assert k.ready == [f] + k.ready[1..];
      assert ReadyCount(k, {k.idle}, f);
      var r0 := Kernel(k.procs, k.queues, k.ready[1..], k.current, k.idle);
      SameLists(k, r0);
      DispatchSame(r0, f);
      forall p: Pid ensures ReadyCount(r, {r.current, r.idle}, p) {
        assert ReadyCount(k, {k.idle}, p);
      }
    }
  }

  /** Yield of a process that has just fallen asleep or finished: nothing to requeue. */
  lemma ReadyWithoutCurrent(k: Kernel)
    requires k.current in k.procs && !IsRunnable(k, k.current) && ReadyExact(k, {k.current, k.idle})
    ensures ReadyExact(k, {k.idle})
  {
    forall p: Pid ensures ReadyCount(k, {k.idle}, p) {
      assert ReadyCount(k, {k.current, k.idle}, p);
    }
  }

  /** A process with no locks that yields goes to the back of the ready queue. */
  lemma YieldSpec(k: Kernel)
    requires Inv(k)
    ensures Inv(Yield(k))
    ensures Switched(if k.current == k.idle then k else MarkReady(k, k.current), Yield(k))
    ensures k.current != k.idle ==> MarkReady(k, k.current).ready == k.ready + [k.current]
  {
    hide Reciprocal, MarkReady, Switch;
    if k.current == k.idle {
      assert {k.current, k.idle} == {k.idle};
      SwitchSpec(k);
    } else {
      var r := MarkReady(k, k.current);
      MarkReadySpec(k, k.current);
      forall p: Pid ensures ReadyCount(r, {r.idle}, p) {
        assert ReadyCount(k, {k.current, k.idle}, p);
      }
      SwitchSpec(r);
    }
  }

  /** Everything but the two lists unchanged while the current process registers with queues. */
  ghost predicate Registering(k: Kernel, r: Kernel) {
    && Reciprocal(r) && k.current in k.procs
    && r.ready == k.ready && r.current == k.current && r.idle == k.idle
    && exists os :: r.procs == k.procs[k.current := Proc(k.procs[k.current].state, os, k.procs[k.current].interrupted)]
  }

  lemma OwnKeeps(k: Kernel, q: Queue)
    requires Reciprocal(k) && k.current in k.procs
    ensures Registering(k, OwnBlock(k, k.current, q))
  {
    hide Reciprocal;
    MatchedAt(k, k.current, q);
    OnePair(k, OwnBlock(k, k.current, q), k.current, q);
    var os := k.procs[k.current].owners + [q];
    assert OwnBlock(k, k.current, q).procs ==
           k.procs[k.current := Proc(k.procs[k.current].state, os, k.procs[k.current].interrupted)];
  }

  lemma RegisteringAgain(k: Kernel, r: Kernel, z: Kernel)
    requires Registering(k, r) && Registering(r, z)
    ensures Registering(k, z)
  {
    hide Reciprocal;
    var os1 :| r.procs == k.procs[k.current := Proc(k.procs[k.current].state, os1, k.procs[k.current].interrupted)];
    var os2 :| z.procs == r.procs[k.current := Proc(r.procs[k.current].state, os2, r.procs[k.current].interrupted)];
    assert z.procs == k.procs[k.current := Proc(k.procs[k.current].state, os2, k.procs[k.current].interrupted)];
  }

  lemma {:induction false} OwnEachKeeps(k: Kernel, qs: seq<Queue>)
    requires Reciprocal(k) && k.current in k.procs
    ensures Registering(k, OwnEach(k, k.current, qs))
    decreases |qs|
  {
    hide Reciprocal, OwnBlock, Waiters;
    if qs == [] {
      assert k.procs == k.procs[k.current := k.procs[k.current]];
      var pr := k.procs[k.current];
      assert k.procs == k.procs[k.current := Proc(pr.state, pr.owners, pr.interrupted)];
    } else if k.current in Waiters(k, qs[0]) {
      OwnEachKeeps(k, qs[1..]);
    } else {
      OwnKeeps(k, qs[0]);
      var r := OwnBlock(k, k.current, qs[0]);
      OwnEachKeeps(r, qs[1..]);
      RegisteringAgain(k, r, OwnEach(r, r.current, qs[1..]));
    }
  }

  /** Registering with any queues, falling asleep and yielding. */
  lemma AsleepSpec(k: Kernel, r: Kernel)
    requires Inv(k) && k.current != k.idle && Registering(k, r)
    ensures Inv(Yield(FallAsleep(r))) && Switched(FallAsleep(r), Yield(FallAsleep(r)))
    ensures FallAsleep(r).ready == k.ready && r.current == k.current
    ensures FallAsleep(r).procs == k.procs[k.current := Proc(Sleeping, r.procs[k.current].owners, false)]
  {
    hide Reciprocal, Switch;
    var z := FallAsleep(r);
    SameLists(r, z);
    forall p: Pid ensures ReadyCount(z, {z.current, z.idle}, p) {
      assert ReadyCount(k, {k.current, k.idle}, p);
    }
    ReadyWithoutCurrent(z);
    SwitchSpec(z);
  }

  lemma ForkSpec(k: Kernel, child: Pid)
    requires Inv(k) && child !in k.procs
    ensures Inv(Fork(k, child)) && Fork(k, child).ready == k.ready + [child] && Fork(k, child).current == k.current
    ensures Fork(k, child).idle == k.idle
    ensures exists i :: Fork(k, child).procs == k.procs[child := Proc(Running, [], i)]
  {
    hide Reciprocal, MarkReady;
    var i := k.procs[k.current].interrupted;
    var k1 := SetProc(k, child, Proc(Starting, [], i));
    SameLists(k, k1);
    MarkReadySpec(k1, child);
    var r := MarkReady(k1, child);
    assert r.procs == k.procs[child := Proc(Running, [], i)];
    forall p: Pid ensures ReadyCount(r, {r.current, r.idle}, p) {
      assert ReadyCount(k, {k.current, k.idle}, p);
    }
  }

  lemma SignalSpec(k: Kernel, p: Pid, apart: set<Pid>)
    requires Base(k) && ReadyExact(k, apart) && p in k.procs && !k.procs[p].state.Finished?
    requires k.current in apart && forall p': Pid :: p' in apart ==> !IsSleeping(k, p')
    ensures var r := Signal(k, p);
            && Base(r) && ReadyExact(r, apart) && (r == k || (p != k.current && Woken(k, r, p)))
            && (p != k.current ==> IsRunnable(r, p))
  {
    hide Reciprocal, MarkReady, ReadyExact;
    if p != k.current && !IsRunnable(k, p) {
      MarkReadySpec(k, p);
      assert Woken(k, MarkReady(k, p), p);
      WokenKeeps(k, MarkReady(k, p), p, apart);
    }
  }

  lemma KillSpec(k: Kernel, p: Pid)
    requires Inv(k)
    ensures Inv(Kill(k, p)) && (Kill(k, p) == k || (p != k.current && Woken(k, Kill(k, p), p)))
    ensures p in k.procs && !k.procs[p].state.Finished? ==> IsRunnable(Kill(k, p), p)
    ensures IsSleeping(k, p) ==>
              Kill(k, p).procs[p] == Proc(Running, [], k.procs[p].interrupted || k.procs[p].owners != [])
  {
    hide ReadyExact, Reciprocal, MarkReady;
    if p in k.procs && !k.procs[p].state.Finished? {
      SignalSpec(k, p, {k.current, k.idle});
      MarkReadySpec(k, p);
    }
  }

  /** What exit() leaves behind just before it switches away. */
  ghost predicate Exited(k: Kernel, r: Kernel, parent: Pid) {
    && r.procs.Keys == k.procs.Keys && r.current == k.current && r.idle == k.idle && k.ready <= r.ready
    && k.current in r.procs && r.procs[k.current].state.Finished?
    && IsRunnable(r, parent)
    && forall p: Pid :: p in k.procs && p != k.current && p != parent ==>
         p in r.procs && (r.procs[p] == k.procs[p] || (p in Waiters(k, WaitOf(parent)) && IsRunnable(r, p)))
  }

  ghost function ExitMid(k: Kernel, parent: Pid): Kernel
    requires k.current in k.procs
  {
    var pr := k.procs[k.current];
    var k2 := WakeAll(SetProc(k, k.current, Proc(Finished, pr.owners, pr.interrupted)), WaitOf(parent), false);
    if parent in k2.procs then Signal(k2, parent) else k2
  }

  lemma ExitMidSpec(k: Kernel, parent: Pid)
    requires Inv(k) && k.current != k.idle && parent in k.procs && parent != k.current
    requires !k.procs[parent].state.Finished?
    ensures Base(ExitMid(k, parent)) && ReadyExact(ExitMid(k, parent), {k.current, k.idle})
    ensures Exited(k, ExitMid(k, parent), parent)
  {
    hide Reciprocal, WakeAll, Signal, Waiters;
    var pr := k.procs[k.current];
    var k1 := SetProc(k, k.current, Proc(Finished, pr.owners, pr.interrupted));
    SameLists(k, k1);
    SameWaiters(k, k1, WaitOf(parent));
    var apart := {k.current, k.idle};
    forall p: Pid ensures ReadyCount(k1, apart, p) {
      assert ReadyCount(k, apart, p);
    }
    WakeAllSpec(k1, WaitOf(parent), false, apart);
    var k2 := WakeAll(k1, WaitOf(parent), false);
    assert Touched(k1, k2, WaitOf(parent), parent) && Touched(k1, k2, WaitOf(parent), k.current);
    NotWaiting(k1, WaitOf(parent), k.current);
    assert forall p: Pid :: p in k.procs ==> Touched(k1, k2, WaitOf(parent), p);
    SignalSpec(k2, parent, apart);
  }

  lemma SameWaiters(k: Kernel, r: Kernel, q: Queue)
    requires r.queues == k.queues
    ensures Waiters(r, q) == Waiters(k, q)
  {
  }

  /** A process that is not asleep waits nowhere. */
  lemma NotWaiting(k: Kernel, q: Queue, p: Pid)
    requires Base(k) && !IsSleeping(k, p)
    ensures p !in Waiters(k, q)
  {
    hide Reciprocal;
    MatchedAt(k, p, q);
  }

  lemma ExitSpec(k: Kernel, parent: Pid)
    requires Inv(k) && k.current != k.idle && parent in k.procs && parent != k.current
    requires !k.procs[parent].state.Finished?
    ensures Inv(Exit(k, parent)) && Exited(k, ExitMid(k, parent), parent)
    ensures Switched(ExitMid(k, parent), Exit(k, parent))
  {
    hide ReadyExact, Reciprocal, WakeAll, Signal, Switch, Waiters, Exited;
    ExitMidSpec(k, parent);
    var m := ExitMid(k, parent);
    ExitedCurrent(k, m, parent);
    ReadyWithoutCurrent(m);
    SwitchSpec(m);
  }

  lemma ExitedCurrent(k: Kernel, r: Kernel, parent: Pid)
    requires Exited(k, r, parent) && Base(r)
    ensures r.current == k.current && r.idle == k.idle && k.current in r.procs && !IsRunnable(r, k.current)
    ensures r.procs[k.current].owners == []
  {
  }

  lemma DestroySpec(k: Kernel, p: Pid)
    requires Inv(k) && p in k.procs && k.procs[p].state.Finished?
    ensures Inv(Destroy(k, p))
  {
    hide Reciprocal;
    var r := Destroy(k, p);
    SameLists(k, r);
    forall p': Pid ensures ReadyCount(r, {r.current, r.idle}, p') {
      assert ReadyCount(k, {k.current, k.idle}, p');
    }
  }

  // ---------------------------------------------------------------- steps in closed form

  lemma InvalidateNothing(k: Kernel, p: Pid)
    requires p in k.procs && k.procs[p].owners == []
    ensures Invalidate(k, p) == k
  {
  }

  /** mark_ready of a process that waits nowhere. */
  lemma MarkReadyUnlocked(k: Kernel, p: Pid)
    requires p in k.procs && k.procs[p].owners == []
    ensures MarkReady(k, p)
            == Kernel(k.procs[p := Proc(Running, [], k.procs[p].interrupted)], k.queues,
                      k.ready + [p], k.current, k.idle)
  {
    hide Invalidate;
    InvalidateNothing(SetProc(k, p, Proc(Running, [], k.procs[p].interrupted)), p);
  }

  /** The kernel after a switch to `f`. */
  function SwitchedTo(k: Kernel, f: Pid, rest: seq<Pid>): Kernel
    requires f in k.procs
  {
    Kernel(k.procs[f := Proc(Running, k.procs[f].owners, k.procs[f].interrupted)], k.queues, rest, f, k.idle)
  }

  lemma SwitchFront(k: Kernel, f: Pid, rest: seq<Pid>)
    requires k.idle in k.procs && k.ready == [f] + rest && IsRunnable(k, f)
    ensures Switch(k) == SwitchedTo(k, f, rest)
  {
    assert k.ready[1..] == rest;
  }

  lemma YieldFront(k: Kernel, f: Pid, rest: seq<Pid>)
    requires k.idle in k.procs && k.current != k.idle && IsRunnable(k, k.current) && k.procs[k.current].owners == []
    requires k.ready == [f] + rest && IsRunnable(k, f)
    ensures f in MarkReady(k, k.current).procs
    ensures Yield(k) == SwitchedTo(MarkReady(k, k.current), f, rest + [k.current])
  {
    hide MarkReady, Switch;
    MarkReadyUnlocked(k, k.current);
    assert [f] + rest + [k.current] == [f] + (rest + [k.current]);
    SwitchFront(MarkReady(k, k.current), f, rest + [k.current]);
  }

  lemma SleepFront(k: Kernel, q: Queue, f: Pid, rest: seq<Pid>)
    requires k.current in k.procs && k.idle in k.procs && k.ready == [f] + rest && IsRunnable(k, f) && f != k.current
    ensures var c := k.current;
            var z := Kernel(k.procs[c := Proc(Sleeping, k.procs[c].owners + [q], false)],
                            k.queues[q := Waiters(k, q) + [c]], k.ready, c, k.idle);
            Sleep(k, q) == SwitchedTo(z, f, rest)
  {
    hide MarkReady, Switch, Waiters;
    var c := k.current;
    var z := FallAsleep(OwnBlock(k, c, q));
    assert z.procs == k.procs[c := Proc(Sleeping, k.procs[c].owners + [q], false)];
    SwitchFront(z, f, rest);
  }

  lemma ForkQueues(k: Kernel, child: Pid)
    requires k.current in k.procs
    ensures Fork(k, child)
            == Kernel(k.procs[child := Proc(Running, [], k.procs[k.current].interrupted)], k.queues,
                      k.ready + [child], k.current, k.idle)
  {
    hide MarkReady;
    var z := SetProc(k, child, Proc(Starting, [], k.procs[k.current].interrupted));
    MarkReadyUnlocked(z, child);
    assert z.procs[child := Proc(Running, [], k.procs[k.current].interrupted)]
        == k.procs[child := Proc(Running, [], k.procs[k.current].interrupted)];
  }

  lemma DeleteOnly<T>(x: T)
    ensures Delete([x], x) == []
  {
  }

  /** A queue whose only waiter waits nowhere else. */
  lemma WakeOnly(k: Kernel, q: Queue, p: Pid)
    requires Waiters(k, q) == [p] && IsSleeping(k, p) && k.procs[p].owners == [q]
    ensures WakeSingle(k, q)
            == Kernel(k.procs[p := Proc(Running, [], k.procs[p].interrupted)], k.queues[q := []],
                      k.ready + [p], k.current, k.idle)
  {
    hide MarkReady, Delete;
    DeleteOnly(q);
    var r := PopWaiter(k, q);
    assert [p][..0] == [];
    assert r == Kernel(k.procs[p := Proc(Sleeping, [], k.procs[p].interrupted)], k.queues[q := []],
                       k.ready, k.current, k.idle);
    MarkReadyUnlocked(r, p);
    assert r.procs[p := Proc(Running, [], k.procs[p].interrupted)]
        == k.procs[p := Proc(Running, [], k.procs[p].interrupted)];
  }

  /** exit() under a parent that is runnable and whose waitpid queue is empty. */
  lemma ExitFront(k: Kernel, parent: Pid, f: Pid, rest: seq<Pid>)
    requires k.current in k.procs && k.procs[k.current].owners == [] && k.idle in k.procs
    requires parent != k.current && IsRunnable(k, parent) && Waiters(k, WaitOf(parent)) == []
    requires k.ready == [f] + rest && IsRunnable(k, f) && f != k.current
    ensures var c := k.current;
            var z := Kernel(k.procs[c := Proc(Finished, [], k.procs[c].interrupted)], k.queues, k.ready, c, k.idle);
            Exit(k, parent) == SwitchedTo(z, f, rest)
  {
    hide MarkReady, Invalidate, Switch;
    var c := k.current;
    var z := SetProc(k, c, Proc(Finished, [], k.procs[c].interrupted));
    assert WakeAll(z, WaitOf(parent), false) == z;
    assert Signal(z, parent) == z;
    InvalidateNothing(z, c);
    SwitchFront(z, f, rest);
  }
}
