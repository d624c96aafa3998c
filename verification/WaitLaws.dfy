/** What going to sleep and waking up mean for one process: it is registered where it asked to be, and a
    wake-up of any of those places releases it from all of them. */
module WaitLaws {

  import opened Basics
  import opened Scheduler

  /** How often `p` stands in the queue. */
  function Count(k: Kernel, q: Queue, p: Pid): nat {
    multiset(Waiters(k, q))[p]
  }

  ghost predicate WaitsNowhere(k: Kernel, p: Pid) {
    forall q: Queue :: p !in Waiters(k, q)
  }

  // ---------------------------------------------------------------- going to sleep

  lemma OwnCounts(k: Kernel, p: Pid, q: Queue, q': Queue)
    requires p in k.procs
    ensures Count(OwnBlock(k, p, q), q', p) == Count(k, q', p) + if q' == q then 1 else 0
  {
  }

  lemma {:induction false} OwnEachCounts(k: Kernel, p: Pid, qs: seq<Queue>, q: Queue)
    requires p in k.procs
    ensures Count(OwnEach(k, p, qs), q, p) == if q in qs && p !in Waiters(k, q) then 1 else Count(k, q, p)
    decreases |qs|
  {
    hide Waiters, OwnBlock;
    if qs != [] {
      var z := if p in Waiters(k, qs[0]) then k else OwnBlock(k, p, qs[0]);
      OwnStays(k, p, qs[0]);
      OwnCounts(k, p, qs[0], q);
      OwnEachCounts(z, p, qs[1..], q);
      assert q in qs <==> q == qs[0] || q in qs[1..];
      assert p in Waiters(z, q) <==> Count(z, q, p) > 0;
      assert p in Waiters(k, q) <==> Count(k, q, p) > 0;
    }
  }

  lemma OwnStays(k: Kernel, p: Pid, q: Queue)
    requires p in k.procs
    ensures p in OwnBlock(k, p, q).procs
  {
  }

  lemma AwakeCounts(k: Kernel, q: Queue)
    requires Inv(k)
    ensures Count(k, q, k.current) == 0 && k.current in k.procs
  {
    NotWaiting(k, q, k.current);
  }

  /** Falling asleep and yielding leaves the queues alone. */
  lemma AsleepQueues(k: Kernel, r: Kernel, q: Queue)
    requires Inv(k) && k.current != k.idle && Registering(k, r)
    ensures Waiters(Yield(FallAsleep(r)), q) == Waiters(r, q)
  {
    hide Reciprocal, ReadyExact, Yield;
    AsleepSpec(k, r);
  }

  /** select(): afterwards the caller stands once in each queue it named and in no other, however often it
      named it. */
  lemma SelectRegisters(k: Kernel, qs: seq<Queue>)
    requires Inv(k) && k.current != k.idle
    ensures Inv(Select(k, qs)) && IsSleeping(Select(k, qs), k.current)
    ensures forall q: Queue :: multiset(Waiters(Select(k, qs), q))[k.current] == if q in qs then 1 else 0
  {
    hide Inv, OwnEach, Waiters, Yield, Registering, Reciprocal;
    CurrentThere(k);
    OwnEachKeeps(k, qs);
    var z := OwnEach(k, k.current, qs);
    SleepsThen(k, z);
    forall q: Queue ensures multiset(Waiters(Select(k, qs), q))[k.current] == if q in qs then 1 else 0 {
      AwakeCounts(k, q);
      OwnEachCounts(k, k.current, qs, q);
      AsleepQueues(k, z, q);
      assert k.current in Waiters(k, q) <==> Count(k, q, k.current) > 0;
    }
  }

  /** sleep_on_queue(): afterwards the caller stands once in that queue and in no other. */
  lemma SleepRegisters(k: Kernel, q: Queue)
    requires Inv(k) && k.current != k.idle
    ensures Inv(Sleep(k, q)) && IsSleeping(Sleep(k, q), k.current)
    ensures forall q': Queue :: multiset(Waiters(Sleep(k, q), q'))[k.current] == if q' == q then 1 else 0
  {
    hide Inv, OwnBlock, Waiters, Yield, Registering, Reciprocal;
    CurrentThere(k);
    OwnKeeps(k, q);
    var z := OwnBlock(k, k.current, q);
    SleepsThen(k, z);
    forall q': Queue ensures multiset(Waiters(Sleep(k, q), q'))[k.current] == if q' == q then 1 else 0 {
      AwakeCounts(k, q');
      OwnCounts(k, k.current, q, q');
      AsleepQueues(k, z, q');
    }
  }

  lemma CurrentThere(k: Kernel)
    requires Inv(k)
    ensures Reciprocal(k) && k.current in k.procs && k.idle in k.procs
  {
  }

  lemma SleepsThen(k: Kernel, r: Kernel)
    requires Inv(k) && k.current != k.idle && Registering(k, r)
    ensures k.current in r.procs && r.current == k.current && r.idle in r.procs
    ensures Inv(Yield(FallAsleep(r))) && IsSleeping(Yield(FallAsleep(r)), k.current)
  {
    hide Reciprocal, ReadyExact, Yield;
    AsleepSpec(k, r);
  }

  // ---------------------------------------------------------------- waking up

  lemma RunnableWaitsNowhere(k: Kernel, p: Pid)
    requires Base(k) && IsRunnable(k, p)
    ensures WaitsNowhere(k, p)
  {
    hide Reciprocal;
    forall q: Queue ensures p !in Waiters(k, q) {
      NotWaiting(k, q, p);
    }
  }

  /** A single wake-up releases the last waiter from every queue it stands in. */
  lemma SingleReleases(k: Kernel, q: Queue, select: bool)
    requires Inv(k) && Waiters(k, q) != []
    ensures var p := LastWaiter(k, q); var r := if select then WakeSingleSelect(k, q) else WakeSingle(k, q);
            IsRunnable(r, p) && WaitsNowhere(r, p)
  {
    hide Reciprocal, ReadyExact, WakeSingle, WakeSingleSelect, Waiters, WaitsNowhere;
    var p := LastWaiter(k, q);
    var r := if select then WakeSingleSelect(k, q) else WakeSingle(k, q);
    if select { WakeSingleSelectSpec(k, q); } else { WakeSingleSpec(k, q); }
    assert p != k.current && p != k.idle;
    WokenKeeps(k, r, p, {k.current, k.idle});
    RunnableWaitsNowhere(r, p);
  }

  /** A wake-up of the whole queue releases everybody who stands in it. */
  lemma AllReleases(k: Kernel, q: Queue, select: bool, p: Pid)
    requires Inv(k) && p in Waiters(k, q)
    ensures IsRunnable(WakeAll(k, q, select), p) && WaitsNowhere(WakeAll(k, q, select), p)
  {
    hide Reciprocal, ReadyExact, WakeAll, Waiters, WaitsNowhere;
    var r := WakeAll(k, q, select);
    assert p in k.procs by { if !IsSleeping(k, p) { NotWaiting(k, q, p); } }
    WakeAllSpec(k, q, select, {k.current, k.idle});
    assert Touched(k, r, q, p);
    RunnableWaitsNowhere(r, p);
  }

  /** Whoever went to sleep in select() is released by a wake-up of any queue it named. */
  lemma SelectIsReleased(k: Kernel, qs: seq<Queue>, q: Queue, select: bool)
    requires Inv(k) && k.current != k.idle && q in qs
    ensures var z := Select(k, qs);
            && k.current in Waiters(z, q)
            && IsRunnable(WakeAll(z, q, select), k.current) && WaitsNowhere(WakeAll(z, q, select), k.current)
            && (LastWaiter(z, q) == k.current ==>
                  var r := if select then WakeSingleSelect(z, q) else WakeSingle(z, q);
                  IsRunnable(r, k.current) && WaitsNowhere(r, k.current))
  {
    hide Inv, Select, WakeAll, WakeSingle, WakeSingleSelect, Waiters, WaitsNowhere;
    CurrentThere(k);
    SelectRegisters(k, qs);
    var z := Select(k, qs);
    assert multiset(Waiters(z, q))[k.current] == 1;
    AllReleases(z, q, select, k.current);
    SingleReleases(z, q, select);
  }

  /** The select form of a wake-up marks nobody as interrupted. */
  lemma {:induction false} SelectKeepsFlags(k: Kernel, q: Queue, p: Pid)
    requires Inv(k) && p in k.procs
    ensures p in WakeAll(k, q, true).procs && WakeAll(k, q, true).procs[p].interrupted == k.procs[p].interrupted
    decreases |Waiters(k, q)|
  {
    hide Reciprocal, ReadyExact, WakeSingleSelect, Waiters;
    if Waiters(k, q) != [] {
      var r, w := WakeSingleSelect(k, q), LastWaiter(k, q);
      WakeSingleSelectSpec(k, q);
      assert w != k.current && w != k.idle;
      WokenKeeps(k, r, w, {k.current, k.idle});
      SelectKeepsFlags(r, q, p);
    }
  }
}
