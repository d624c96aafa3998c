/** When a process that waits for the mutex is served: exactly when nobody has taken the mutex by the time
    its turn in the ready queue comes. */
module MutexTurns {

  import opened Basics
  import opened Scheduler
  import opened ProcessRuns
  import SchedulerRuns

  // ---------------------------------------------------------------- who holds the mutex after a run

  function HeldBy(locked: bool, e: Event): bool {
    match e
    case LockTurn => true
    case Unlock => false
    case _ => locked
  }

  /** Whether the mutex is held after the events, by their order alone. */
  function HeldAfter(locked: bool, es: seq<Event>): bool
    decreases |es|
  {
    if es == [] then locked else HeldAfter(HeldBy(locked, es[0]), es[1..])
  }

  lemma StepLocked(s: System, e: Event)
    requires Inv(s.k) && Enabled(s, e) && (e.Leave? ==> s.k.current in s.parent)
    ensures Next(s, e).locked == HeldBy(s.locked, e)
  {
    hide Inv, Sleep, Select, Yield, WakeAll, WakeSingle, WakeSingleSelect, Kill, Fork, Exit, ScanChildren, Delete;
  }

  lemma {:induction false} RunLocked(s: System, es: seq<Event>)
    requires Good(s) && Legal(s, es)
    ensures Run(s, es).locked == HeldAfter(s.locked, es)
    decreases |es|
  {
    hide Good, Next, Enabled;
    if es != [] {
      GoodParts(s);
      StepGood(s, es[0]);
      StepLocked(s, es[0]);
      RunLocked(Next(s, es[0]), es[1..]);
    }
  }

  lemma LockServes(s: System)
    requires Good(s) && Enabled(s, LockTurn) && s.k.current !in s.critical
    ensures Inv(s.k) && (s.k.current in Next(s, LockTurn).critical <==> !s.locked)
  {
    hide Good, Inv, Sleep;
    GoodParts(s);
  }

  /** After any run, a process whose turn in mutex_lock comes gets the mutex if and only if the last of the
      lock turns and unlocks in the run, if there was one, is an unlock. */
  lemma ServedExactly(s: System, es: seq<Event>, p: Pid)
    requires Good(s) && Legal(s, es)
    requires var r := Run(s, es); r.k.current == p && Enabled(r, LockTurn) && p !in r.critical
    ensures Inv(Run(s, es).k)
    ensures p in Next(Run(s, es), LockTurn).critical <==> !HeldAfter(s.locked, es)
  {
    hide Good, Legal, Run, Enabled, Next;
    RunGood(s, es);
    RunLocked(s, es);
    LockServes(Run(s, es));
  }

  // ---------------------------------------------------------------- events as kernel actions

  datatype Move = Still | Does(a: SchedulerRuns.Action)

  /** What an event does in the scheduler. */
  function KernelMove(s: System, e: Event): Move {
    var c := s.k.current;
    match e
    case Preempt => Does(SchedulerRuns.Preempt)
    case Block(q) => Does(SchedulerRuns.SleepOn(q))
    case BlockSelect(qs) => Does(SchedulerRuns.SelectOn(qs))
    case WakeUp(q, all, select) => Does(SchedulerRuns.Wake(q, all, select))
    case Spawn(child) => Does(SchedulerRuns.Spawn(child))
    case SendKill(p) => Does(SchedulerRuns.SendSignal(p))
    case Leave => if c in s.parent then Does(SchedulerRuns.Terminate(s.parent[c])) else Still
    case WaitTurn(arg, nohang) =>
      (match ScanChildren(s, ChildrenOf(s, c), c, arg)
       case NoChild => Still
       case Picked(child) => Does(SchedulerRuns.Reap(child))
       case NoneFinished => if nohang then Still else Does(SchedulerRuns.SleepOn(WaitOf(c))))
    case LockTurn => if s.locked then Does(SchedulerRuns.SleepOn(MUTEX_QUEUE)) else Still
    case Unlock => Does(SchedulerRuns.Wake(MUTEX_QUEUE, false, false))
  }

  predicate Switches(s: System, e: Event) {
    var m := KernelMove(s, e);
    m.Does? && SchedulerRuns.SwitchesAway(m.a)
  }

  lemma MoveIs(s: System, e: Event)
    requires Good(s) && Enabled(s, e)
    ensures Inv(s.k) && (e.Leave? ==> s.k.current in s.parent)
    ensures var m := KernelMove(s, e);
            if m.Still? then Next(s, e).k == s.k
            else SchedulerRuns.Enabled(s.k, m.a) && Next(s, e).k == SchedulerRuns.Next(s.k, m.a)
  {
    hide Good, Inv, Sleep, Select, Yield, WakeAll, WakeSingle, WakeSingleSelect, Kill, Fork, Exit, ScanChildren, Delete;
    GoodParts(s);
    if e.Leave? {
      LeaveParent(s);
    }
  }

  lemma EventMoves(s: System, e: Event)
    requires Good(s) && Enabled(s, e)
    ensures Inv(s.k) && (e.Leave? ==> s.k.current in s.parent)
    ensures SchedulerRuns.QueueMoves(s.k, Next(s, e).k, Switches(s, e))
  {
    hide Good, Inv, Enabled, Next, KernelMove, SchedulerRuns.Enabled, SchedulerRuns.Next;
    MoveIs(s, e);
    var m := KernelMove(s, e);
    if m.Does? {
      SchedulerRuns.StepKeeps(s.k, m.a);
    }
  }

  // ---------------------------------------------------------------- what a step leaves alone

  /** A process that is not running stays where it is in its code, and does not get or lose the mutex. */
  lemma OthersStay(s: System, e: Event, w: Pid)
    requires Inv(s.k) && Enabled(s, e) && (e.Leave? ==> s.k.current in s.parent)
    requires w != s.k.current && w in s.k.procs
    ensures PlaceOf(Next(s, e), w) == PlaceOf(s, w) && (w in Next(s, e).critical <==> w in s.critical)
  {
    hide Inv, Sleep, Select, Yield, WakeAll, WakeSingle, WakeSingleSelect, Kill, Fork, Exit, ScanChildren, Delete;
  }

  lemma IdleStays(s: System, e: Event)
    requires Good(s) && Enabled(s, e)
    ensures Inv(s.k) && (e.Leave? ==> s.k.current in s.parent) && Next(s, e).k.idle == s.k.idle
  {
    hide Good, Inv, Sleep, Select, Yield, WakeAll, WakeSingle, WakeSingleSelect, Kill, Fork, Exit, ScanChildren, Delete,
         DriftAll, DriftExcept;
    GoodParts(s);
    StepGood(s, e);
    match e
    case Preempt => YieldCalm(s.k);
    case Block(q) => SleepSlept(s.k, q);
    case BlockSelect(qs) => SelectSlept(s.k, qs);
    case WakeUp(q, all, select) =>
      if all { WakeAllCalm(s.k, q, select); } else { WakeSingleCalm(s.k, q, select); }
    case Spawn(child) => ForkSpec(s.k, child);
    case SendKill(p) => KillCalm(s.k, p);
    case Leave => LeaveParent(s); ExitDrift(s.k, s.parent[s.k.current]);
    case WaitTurn(_, _) => SleepSlept(s.k, WaitOf(s.k.current));
    case LockTurn => SleepSlept(s.k, MUTEX_QUEUE);
    case Unlock => WakeSingleCalm(s.k, MUTEX_QUEUE, false);
  }

  // ---------------------------------------------------------------- bounded waiting over events

  /** The events contain `n` switches, and the last event is the last of them. */
  ghost predicate Turns(s: System, es: seq<Event>, n: nat)
    requires Good(s) && Legal(s, es)
    decreases |es|
  {
    && es != []
    && var m := if Switches(s, es[0]) then 1 else 0;
       if |es| == 1 then n == m == 1
       else n > m && (StepGood(s, es[0]); Turns(Next(s, es[0]), es[1..], n - m))
  }

  lemma QueuedIs(k: Kernel, i: nat)
    requires Inv(k) && i < |k.ready|
    ensures k.ready[i] in k.procs && k.ready[i] != k.current && k.ready[i] != k.idle
  {
    assert k.ready[i] in multiset(k.ready);
    assert ReadyCount(k, {k.current, k.idle}, k.ready[i]);
  }

  /** The process at index i of the ready queue runs after the (i+1)-th switch, where it was. */
  lemma {:induction false} Dispatched(s: System, es: seq<Event>, i: nat, w: Pid)
    requires Good(s) && Legal(s, es) && i < |s.k.ready| && s.k.ready[i] == w && Turns(s, es, i + 1)
    ensures var r := Run(s, es);
            && r.k.current == w && r.k.idle == s.k.idle && w != s.k.idle
            && PlaceOf(r, w) == PlaceOf(s, w) && (w in r.critical <==> w in s.critical)
    decreases |es|
  {
    hide Good, Inv, Enabled, Next, PlaceOf, Switches;
    var e := es[0];
    GoodParts(s);
    StepGood(s, e);
    QueuedIs(s.k, i);
    EventMoves(s, e);
    OthersStay(s, e, w);
    IdleStays(s, e);
    var z := Next(s, e);
    if |es| == 1 {
      assert es[1..] == [];
      assert Run(s, es) == Run(z, []);
    } else if Switches(s, e) {
      assert z.k.ready[i - 1] == s.k.ready[1..][i - 1];
      Dispatched(z, es[1..], i - 1, w);
    } else {
      Dispatched(z, es[1..], i, w);
    }
  }

  // ---------------------------------------------------------------- a woken waiter

  lemma UnlockWakes(s: System)
    requires Good(s) && Enabled(s, Unlock) && Waiters(s.k, MUTEX_QUEUE) != []
    ensures Inv(s.k)
    ensures var z := Next(s, Unlock); var w := LastWaiter(s.k, MUTEX_QUEUE);
            && z.k.ready == s.k.ready + [w] && !z.locked && w !in z.critical && PlaceOf(z, w).InLock?
  {
    hide Inv, TreeOk, NoLostExit, OwnWaits, WakeSingle, NoLostWakeup, Reciprocal;
    InvParts(s.k);
    WakeSingleSpec(s.k, MUTEX_QUEUE);
    assert LastWaiter(s.k, MUTEX_QUEUE) in Waiters(s.k, MUTEX_QUEUE);
  }

  /** An unlock wakes the waiter that came last. It runs after as many switches as there were processes
      ready, and one more, and then gets the mutex if and only if no lock turn since has been left without
      an unlock: barging is the only way to miss it. */
  lemma WokenServedExactly(s: System, es: seq<Event>)
    requires Good(s) && Enabled(s, Unlock) && Waiters(s.k, MUTEX_QUEUE) != []
    requires Inv(s.k) && Good(Next(s, Unlock)) && Legal(Next(s, Unlock), es)
    requires Turns(Next(s, Unlock), es, |s.k.ready| + 1)
    ensures var r := Run(Next(s, Unlock), es); var w := LastWaiter(s.k, MUTEX_QUEUE);
            && r.k.current == w && Enabled(r, LockTurn) && Inv(r.k)
            && (w in Next(r, LockTurn).critical <==> !HeldAfter(false, es))
  {
    hide Good, Inv, Legal, Run, Turns, Next, Waiters;
    var z, w := Next(s, Unlock), LastWaiter(s.k, MUTEX_QUEUE);
    UnlockWakes(s);
    Dispatched(z, es, |s.k.ready|, w);
    ServedExactly(z, es, w);
  }
}
