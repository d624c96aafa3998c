/** Whole runs of the scheduler: the three facts at every scheduling point, and bounded waiting. */
module SchedulerRuns {
  import opened Basics
  import opened Scheduler

  /** One atomic step of the running system. */
  datatype Action =
    | Preempt
    | SleepOn(q: Queue)
    | SelectOn(qs: seq<Queue>)
    | Wake(q: Queue, all: bool, select: bool)
    | Spawn(child: Pid)
    | SendSignal(target: Pid)
    | Terminate(parent: Pid)
    | Reap(pid: Pid)

  /** The idle process only ever waits for interrupts; a process that exits has a live parent. */
  ghost predicate Enabled(k: Kernel, a: Action) {
    match a
    case Preempt => true
    case SleepOn(_) => k.current != k.idle
    case SelectOn(_) => k.current != k.idle
    case Wake(_, _, _) => true
    case Spawn(child) => child !in k.procs
    case SendSignal(_) => true
    case Terminate(parent) =>
      k.current != k.idle && parent in k.procs && parent != k.current && !k.procs[parent].state.Finished?
    case Reap(p) => p in k.procs && k.procs[p].state.Finished?
  }

  ghost function Next(k: Kernel, a: Action): Kernel
    requires Inv(k)
  {
    match a
    case Preempt => Yield(k)
    case SleepOn(q) => Sleep(k, q)
    case SelectOn(qs) => Select(k, qs)
    case Wake(q, all, select) =>
      if all then WakeAll(k, q, select) else if select then WakeSingleSelect(k, q) else WakeSingle(k, q)
    case Spawn(child) => Fork(k, child)
    case SendSignal(p) => Kill(k, p)
    case Terminate(parent) => Exit(k, parent)
    case Reap(p) => Destroy(k, p)
  }

  /** The actions that end with a switch to another process. */
  predicate SwitchesAway(a: Action) {
    a.Preempt? || a.SleepOn? || a.SelectOn? || a.Terminate?
  }

  /** What a step does to the ready queue: a switch takes its front, everything else only appends. */
  ghost predicate QueueMoves(k: Kernel, r: Kernel, away: bool) {
    if away then k.ready != [] ==> r.current == k.ready[0] && k.ready[1..] <= r.ready
    else r.current == k.current && k.ready <= r.ready
  }

  lemma WakeOneKeeps(k: Kernel, r: Kernel, q: Queue, p: Pid)
    requires Inv(k) && Woken(k, r, p) && IsSleeping(k, p)
    ensures Inv(r) && QueueMoves(k, r, false)
  {
    hide Reciprocal, ReadyExact;
    WokenKeeps(k, r, p, {k.current, k.idle});
  }

  lemma InvUnfold(k: Kernel)
    requires Inv(k)
    ensures Base(k) && ReadyExact(k, {k.current, k.idle}) && Reciprocal(k)
    ensures IsRunnable(k, k.current) && IsRunnable(k, k.idle)
    ensures forall p: Pid :: p in {k.current, k.idle} ==> !IsSleeping(k, p)
  {
  }

  lemma InvFold(k: Kernel)
    requires Base(k) && IsRunnable(k, k.current) && ReadyExact(k, {k.current, k.idle})
    ensures Inv(k)
  {
  }

  lemma WakeKeeps(k: Kernel, q: Queue, all: bool, select: bool)
    requires Inv(k)
    ensures Inv(Next(k, Wake(q, all, select))) && QueueMoves(k, Next(k, Wake(q, all, select)), false)
  {
    hide Inv, Base, WakeSingle, WakeSingleSelect, WakeAll, ReadyExact;
    InvUnfold(k);
    if all {
      WakeAllSpec(k, q, select, {k.current, k.idle});
      var r := WakeAll(k, q, select);
      assert Touched(k, r, q, k.current);
      InvFold(r);
    } else if Waiters(k, q) == [] {
      EmptyWake(k, q);
    } else if select {
      WakeSingleSelectSpec(k, q);
      WakeOneKeeps(k, WakeSingleSelect(k, q), q, LastWaiter(k, q));
    } else {
      WakeSingleSpec(k, q);
      WakeOneKeeps(k, WakeSingle(k, q), q, LastWaiter(k, q));
    }
  }

  lemma EmptyWake(k: Kernel, q: Queue)
    requires Waiters(k, q) == []
    ensures WakeSingle(k, q) == k && WakeSingleSelect(k, q) == k
  {
  }

  /** Every step keeps the facts and moves the ready queue as a queue. */
  lemma StepKeeps(k: Kernel, a: Action)
    requires Inv(k) && Enabled(k, a)
    ensures Inv(Next(k, a)) && QueueMoves(k, Next(k, a), SwitchesAway(a))
  {
    hide Inv, Base, WakeSingle, WakeSingleSelect, WakeAll, ReadyExact, Reciprocal, Yield, Kill, Exit, Fork;
    InvUnfold(k);
    match a
    case Preempt => YieldSpec(k);
    case SleepOn(q) =>
      OwnKeeps(k, q);
      AsleepSpec(k, OwnBlock(k, k.current, q));
    case SelectOn(qs) =>
      OwnEachKeeps(k, qs);
      AsleepSpec(k, OwnEach(k, k.current, qs));
    case Wake(q, all, select) => WakeKeeps(k, q, all, select);
    case Spawn(child) => ForkSpec(k, child);
    case SendSignal(p) => KillSpec(k, p);
    case Terminate(parent) => ExitSpec(k, parent);
    case Reap(p) => DestroySpec(k, p);
  }

  // ---------------------------------------------------------------- runs

  /** Just after boot: the first process runs, idle stands by, nothing else exists. */
  function Boot(init: Pid, idle: Pid): Kernel {
    Kernel(map[init := Proc(Starting, [], false), idle := Proc(Starting, [], false)], map[], [], init, idle)
  }

  lemma BootKeeps(init: Pid, idle: Pid)
    requires init != idle
    ensures Inv(Boot(init, idle))
  {
    var k := Boot(init, idle);
    assert Reciprocal(k) by {
      forall p: Pid, q: Queue ensures Matched(k, p, q) { }
    }
    assert ReadyExact(k, {k.current, k.idle}) by {
      forall p: Pid ensures ReadyCount(k, {k.current, k.idle}, p) { }
    }
  }

  ghost predicate Legal(k: Kernel, acts: seq<Action>)
    requires Inv(k)
    decreases |acts|
  {
    acts == [] || (Enabled(k, acts[0]) && (StepKeeps(k, acts[0]); Legal(Next(k, acts[0]), acts[1..])))
  }

  ghost function Run(k: Kernel, acts: seq<Action>): Kernel
    requires Inv(k) && Legal(k, acts)
    decreases |acts|
  {
    if acts == [] then k else (StepKeeps(k, acts[0]); Run(Next(k, acts[0]), acts[1..]))
  }

  /** In every run from a good state: queue membership matches the owners lists, nothing runnable
      waits, and the ready queue holds each runnable process but current and idle exactly once. */
  lemma {:induction false} RunKeeps(k: Kernel, acts: seq<Action>)
    requires Inv(k) && Legal(k, acts)
    ensures Inv(Run(k, acts))
    decreases |acts|
  {
    if acts != [] {
      StepKeeps(k, acts[0]);
      RunKeeps(Next(k, acts[0]), acts[1..]);
    }
  }

  /** What Inv says, process by process. */
  lemma InvMeaning(k: Kernel, p: Pid, q: Queue)
    requires Inv(k) && p in k.procs
    ensures multiset(Waiters(k, q))[p] == multiset(k.procs[p].owners)[q]
    ensures Runnable(k.procs[p].state) ==> p !in Waiters(k, q)
    ensures multiset(k.ready)[p] == if Runnable(k.procs[p].state) && p != k.current && p != k.idle then 1 else 0
  {
    assert Matched(k, p, q);
    assert ReadyCount(k, {k.current, k.idle}, p);
  }

  function Switches(acts: seq<Action>): nat {
    if acts == [] then 0 else (if SwitchesAway(acts[0]) then 1 else 0) + Switches(acts[1..])
  }

  /** Before the (i+1)-th switch the process at index i is still queued, one place further for each
      switch, whatever wakes, forks, signals, sleeps and exits happen in between. */
  lemma {:induction false} StillQueued(k: Kernel, acts: seq<Action>, i: nat)
    requires Inv(k) && Legal(k, acts) && i < |k.ready| && Switches(acts) <= i
    ensures var r := Run(k, acts); i - Switches(acts) < |r.ready| && r.ready[i - Switches(acts)] == k.ready[i]
    decreases |acts|
  {
    hide Inv, Enabled, Next;
    if acts != [] {
      StepKeeps(k, acts[0]);
      var r := Next(k, acts[0]);
      if SwitchesAway(acts[0]) {
        assert r.ready[i - 1] == k.ready[1..][i - 1];
        StillQueued(r, acts[1..], i - 1);
      } else {
        assert r.ready[i] == k.ready[i];
        StillQueued(r, acts[1..], i);
      }
    }
  }

  /** Bounded waiting: the process at index i of the ready queue is dispatched by the (i+1)-th switch. */
  lemma {:induction false} DispatchedInTime(k: Kernel, acts: seq<Action>, i: nat)
    requires Inv(k) && Legal(k, acts) && i < |k.ready|
    requires Switches(acts) == i + 1 && SwitchesAway(acts[|acts| - 1])
    ensures Run(k, acts).current == k.ready[i]
    decreases |acts|
  {
    hide Inv, Enabled, Next;
    StepKeeps(k, acts[0]);
    var r, rest := Next(k, acts[0]), acts[1..];
    if rest == [] {
      assert Run(r, rest) == r;
    } else {
      assert rest[|rest| - 1] == acts[|acts| - 1];
      LastCounts(rest);
      if SwitchesAway(acts[0]) {
        assert r.ready[i - 1] == k.ready[1..][i - 1];
        DispatchedInTime(r, rest, i - 1);
      } else {
        assert r.ready[i] == k.ready[i];
        DispatchedInTime(r, rest, i);
      }
    }
  }

  lemma {:induction false} LastCounts(acts: seq<Action>)
    requires acts != [] && SwitchesAway(acts[|acts| - 1])
    ensures Switches(acts) > 0
  {
    if |acts| > 1 { LastCounts(acts[1..]); }
  }
}
