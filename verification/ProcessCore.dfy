/** The scheduler functions as they are written: queues, owners lists and process states updated in
    place, with the loops of the kernel. Each method computes its counterpart in Scheduler. */
module ProcessCore {
  import opened Basics
  import opened Scheduler

  class Core {
    var procs: map<Pid, Proc>
    var queues: map<Queue, seq<Pid>>
    var ready: seq<Pid>
    var current: Pid
    var idle: Pid

    constructor (init: Pid, idle: Pid)
      ensures State() == Kernel(map[init := Proc(Starting, [], false), idle := Proc(Starting, [], false)], map[], [],
          init, idle)
    {
      procs := map[init := Proc(Starting, [], false), idle := Proc(Starting, [], false)];
      queues, ready, current := map[], [], init;
      this.idle := idle;
    }

    ghost function State(): Kernel
      reads this
    {
      Kernel(procs, queues, ready, current, idle)
    }

    function QueueOf(q: Queue): (w: seq<Pid>)
      reads this
      ensures w == Waiters(State(), q)
    {
      if q in queues then queues[q] else []
    }

    method OwnBlock(p: Pid, q: Queue)
      requires p in procs
      modifies this
      ensures State() == Scheduler.OwnBlock(old(State()), p, q)
    {
      queues := queues[q := QueueOf(q) + [p]];
      procs := procs[p := Proc(procs[p].state, procs[p].owners + [q], procs[p].interrupted)];
    }

    /** release_block, and the loop of invalidate_locks. */
    method InvalidateLocks(p: Pid)
      requires p in procs
      modifies this
      ensures State() == Invalidate(old(State()), p)
    {
      while procs[p].owners != []
        invariant p in procs && Invalidate(State(), p) == Invalidate(old(State()), p)
        decreases |procs[p].owners|
      {
        ghost var before := State();
        var owners := procs[p].owners;
        var q := owners[|owners| - 1];
        procs := procs[p := Proc(procs[p].state, owners[..|owners| - 1], procs[p].interrupted)];
        queues := queues[q := Delete(QueueOf(q), p)];
        assert State() == DropLast(before, p);
      }
    }

    method MarkReady(p: Pid)
      requires p in procs
      modifies this
      ensures State() == Scheduler.MarkReady(old(State()), p)
    {
      var pr := procs[p];
      var interrupted := pr.interrupted;
      if pr.owners != [] {
        interrupted := true;
      }
      procs := procs[p := Proc(Running, pr.owners, interrupted)];
      InvalidateLocks(p);
      ready := ready + [p];
    }

    /** Takes the last waiter of `q` off the queue and off its own owners list. */
    method PopWaiter(q: Queue) returns (p: Pid)
      requires QueueOf(q) != []
      modifies this
      ensures State() == Scheduler.PopWaiter(old(State()), q) && p == LastWaiter(old(State()), q)
    {
      var w := QueueOf(q);
      p := w[|w| - 1];
      queues := queues[q := w[..|w| - 1]];
      if p in procs {
        procs := procs[p := Proc(procs[p].state, Delete(procs[p].owners, q), procs[p].interrupted)];
      }
    }

    method WakeupQueueSingle(q: Queue)
      modifies this
      ensures State() == WakeSingle(old(State()), q)
    {
      hide Scheduler.PopWaiter, Scheduler.MarkReady;
      while QueueOf(q) != []
        invariant WakeSingle(State(), q) == WakeSingle(old(State()), q)
        decreases |QueueOf(q)|
      {
        var p := PopWaiter(q);
        if p in procs && !procs[p].state.Finished? && !Runnable(procs[p].state) {
          MarkReady(p);
          return;
        }
      }
    }

    method WakeupQueueSingleSelect(q: Queue)
      modifies this
      ensures State() == WakeSingleSelect(old(State()), q)
    {
      hide Scheduler.PopWaiter, Scheduler.MarkReady, Invalidate;
      while QueueOf(q) != []
        invariant WakeSingleSelect(State(), q) == WakeSingleSelect(old(State()), q)
        decreases |QueueOf(q)|
      {
        var p := PopWaiter(q);
        if p in procs {
          InvalidateShrinks(State(), p, q);
          InvalidateLocks(p);
        }
        if p in procs && !procs[p].state.Finished? && !Runnable(procs[p].state) {
          MarkReady(p);
          return;
        }
      }
    }

    method WakeupQueue(q: Queue, select: bool)
      modifies this
      ensures State() == WakeAll(old(State()), q, select)
    {
      hide WakeSingle, WakeSingleSelect;
      while QueueOf(q) != []
        invariant WakeAll(State(), q, select) == WakeAll(old(State()), q, select)
        decreases |QueueOf(q)|
      {
        if select {
          WakeupQueueSingleSelect(q);
        } else {
          WakeupQueueSingle(q);
        }
      }
    }

    /** next(): the front of the ready queue, or idle. */
    method NextProcess() returns (p: Pid)
      modifies this`ready
      ensures old(ready) == [] ==> p == idle && ready == []
      ensures old(ready) != [] ==> p == old(ready)[0] && ready == old(ready)[1..]
    {
      if ready == [] {
        p := idle;
      } else {
        p := ready[0];
        ready := ready[1..];
      }
    }

    method Switch()
      requires idle in procs && Runnable(procs[idle].state)
      modifies this
      ensures State() == Scheduler.Switch(old(State()))
    {
      var p := NextProcess();
      while !(p in procs && Runnable(procs[p].state))
        invariant procs == old(procs) && queues == old(queues) && current == old(current) && idle == old(idle)
        invariant Scheduler.Switch(old(State())) ==
                  if IsRunnable(State(), p) then Dispatch(State(), p) else Scheduler.Switch(State())
        decreases |ready|, p != idle
      {
        p := NextProcess();
      }
      current := p;
      if procs[p].state != Running {
        procs := procs[p := Proc(Running, procs[p].owners, procs[p].interrupted)];
      }
    }

    method Yield()
      requires Inv(State()) || (Base(State()) && !IsRunnable(State(), current))
      modifies this
      ensures State() == Scheduler.Yield(old(State())) && (Inv(old(State())) ==> Inv(State()))
    {
      hide Reciprocal, ReadyExact, Scheduler.MarkReady, Scheduler.Switch, OnlySleepersWait;
      BaseHas(State());
      if Inv(State()) {
        YieldSpec(State());
      }
      if current == idle {
        Switch();
        return;
      }
      if current in procs && Runnable(procs[current].state) {
        MarkReadySpec(State(), current);
        MarkReady(current);
      }
      Switch();
    }

    /** sleep_on_queue up to the moment another process runs. */
    method SleepOnQueue(q: Queue)
      requires Inv(State()) && current != idle
      modifies this
      ensures State() == Sleep(old(State()), q) && Inv(State())
    {
      hide Reciprocal, ReadyExact, Scheduler.OwnBlock, Scheduler.Yield;
      BaseHas(State());
      ghost var k := State();
      OwnKeeps(k, q);
      RegisteredAsleep(k, Scheduler.OwnBlock(k, current, q));
      OwnBlock(current, q);
      procs := procs[current := Proc(Sleeping, procs[current].owners, false)];
      Yield();
      AsleepSpec(k, Scheduler.OwnBlock(k, k.current, q));
    }

    /** wakeup_on_signal */
    method WakeupOnSignal(p: Pid)
      requires p in procs
      modifies this
      ensures State() == Signal(old(State()), p)
    {
      if p != current && !Runnable(procs[p].state) {
        MarkReady(p);
      }
    }

    method Exit(parent: Pid)
      requires Inv(State()) && current != idle && parent in procs && parent != current
      requires !procs[parent].state.Finished?
      modifies this
      ensures State() == Scheduler.Exit(old(State()), parent) && Inv(State())
    {
      hide Reciprocal, ReadyExact, WakeAll, Scheduler.MarkReady, Invalidate, Scheduler.Switch, OnlySleepersWait,
          Waiters;
      ExitSpec(State(), parent);
      ExitMidSpec(State(), parent);
      ExitedCurrent(State(), ExitMid(State(), parent), parent);
      procs := procs[current := Proc(Finished, procs[current].owners, procs[current].interrupted)];
      WakeupQueue(WaitOf(parent), false);
      if parent in procs {
        WakeupOnSignal(parent);
      }
      InvalidateNothing(State(), current);
      InvalidateLocks(current);
      Switch();
    }
  }

  lemma BaseHas(k: Kernel)
    requires Inv(k) || Base(k)
    ensures k.current in k.procs && IsRunnable(k, k.idle) && Reciprocal(k)
  {
  }

  /** Registering and falling asleep leaves a state from which the kernel may switch. */
  lemma RegisteredAsleep(k: Kernel, r: Kernel)
    requires Inv(k) && k.current != k.idle && Registering(k, r)
    ensures k.current in r.procs && r.current == k.current
    ensures Base(FallAsleep(r)) && !IsRunnable(FallAsleep(r), k.current)
  {
    hide Reciprocal;
    SameLists(r, FallAsleep(r));
  }
}
