/** The one process for which waitpid can lose an exit is the root, which inherits the children of every
    process that exits: exactly when that happens, and a run from boot in which it does. */
module RootExits {

  import opened Basics
  import opened Scheduler
  import opened ProcessRuns

  /** The root does not sleep in waitpid while it has a finished child it waits for. */
  ghost predicate RootSees(s: System) {
    forall c: Pid :: NotMissed(s, s.root, c)
  }

  /** A finished child of `p` that the root waits for. */
  ghost predicate Inheritable(s: System, p: Pid, x: Pid) {
    && x in s.parent && s.parent[x] == p && IsFinished(s.k, x)
    && PlaceOf(s, s.root).InWaitpid? && CanPick(s, x, s.root, PlaceOf(s, s.root).arg)
  }

  /** The current process, no child of the root, exits and leaves behind a finished child for which the
      root sleeps. The kernel could look for this before it exits. */
  ghost predicate HandsOver(s: System, e: Event) {
    var c := s.k.current;
    && e.Leave? && c in s.parent && s.parent[c] != s.root && IsSleeping(s.k, s.root)
    && exists x: Pid :: Inheritable(s, c, x)
  }

  // ---------------------------------------------------------------- all steps but exit

  /** The root sleeps only if it did, in the same place, and gains no finished child. */
  ghost predicate Watching(s: System, z: System) {
    && z.root == s.root
    && (IsSleeping(z.k, s.root) && PlaceOf(z, s.root).InWaitpid? ==>
          IsSleeping(s.k, s.root) && PlaceOf(z, s.root) == PlaceOf(s, s.root))
    && (forall c: Pid :: FinishedChild(z, c) ==> FinishedChild(s, c) && GroupOf(z, c) == GroupOf(s, c))
    && GroupOf(z, s.root) == GroupOf(s, s.root)
  }

  ghost predicate FinishedChild(s: System, c: Pid) {
    c in s.parent && s.parent[c] == s.root && IsFinished(s.k, c)
  }

  lemma WatchingSees(s: System, z: System)
    requires RootSees(s) && Watching(s, z)
    ensures RootSees(z)
  {
    forall c: Pid ensures NotMissed(z, z.root, c) {
      assert NotMissed(s, s.root, c);
      if FinishedChild(z, c) { assert FinishedChild(s, c); }
    }
  }

  /** Steps after which everybody but `x` has drifted, and `x` is not in waitpid. */
  lemma DriftSees(s: System, z: System, x: Pid)
    requires RootSees(s) && DriftExcept(s.k, z.k, x) && z.k.procs.Keys == s.k.procs.Keys
    requires !IsFinished(s.k, x) && !IsFinished(z.k, x)
    requires z.root == s.root && z.parent == s.parent && z.group == s.group
    requires forall p: Pid :: p != x ==> PlaceOf(z, p) == PlaceOf(s, p)
    requires x == s.root ==> !IsSleeping(z.k, x) || !PlaceOf(z, x).InWaitpid?
    ensures RootSees(z)
  {
    DriftFinished(s.k, z.k, x);
    WatchingSees(s, z);
  }

  lemma CalmSees(s: System, z: System)
    requires Good(s) && RootSees(s) && Calm(s.k, z.k)
    requires z.root == s.root && z.parent == s.parent && z.group == s.group && z.place == s.place
    ensures RootSees(z)
  {
    hide Inv, TreeOk, OwnWaits, NotMissed;
    InvParts(s.k);
    InvParts(z.k);
    DriftSees(s, z, s.k.idle);
  }

  lemma SleptSees(s: System, r: Kernel, qs: seq<Queue>, at: Place)
    requires Good(s) && RootSees(s) && Slept(s.k, r, qs) && !at.InWaitpid?
    ensures RootSees(WithPlace(s, r, at))
  {
    hide Inv, TreeOk, OwnWaits, NotMissed;
    InvParts(s.k);
    DriftSees(s, WithPlace(s, r, at), s.k.current);
  }

  lemma SpawnSees(s: System, child: Pid)
    requires Good(s) && RootSees(s) && Enabled(s, Spawn(child)) && s.k.current in s.k.procs
    ensures RootSees(DoSpawn(s, child))
  {
    hide Inv, Fork, OwnWaits, Listed, NotMissed;
    InvParts(s.k);
    ForkSpec(s.k, child);
    var z := DoSpawn(s, child);
    var i :| z.k.procs == s.k.procs[child := Proc(Running, [], i)];
    assert s.root in s.k.procs;
    WatchingSees(s, z);
  }

  /** The process that has just scanned its children, if it is the root, missed none. */
  lemma WaitSees(s: System, arg: int, nohang: bool)
    requires Good(s) && RootSees(s) && Enabled(s, WaitTurn(arg, nohang))
    requires s.k.current in s.k.procs && s.k.idle in s.k.procs
    ensures RootSees(DoWait(s, arg, nohang))
  {
    hide Good, Inv, Sleep, ScanChildren, Delete, NotMissed, Slept;
    GoodParts(s);
    var c := s.k.current;
    var z := DoWait(s, arg, nohang);
    match ScanChildren(s, ChildrenOf(s, c), c, arg)
    case NoChild => WatchingSees(s, z);
    case Picked(child) => WatchingSees(s, z);
    case NoneFinished =>
      if nohang {
        WatchingSees(s, z);
      } else {
        WaitSleepSeen(s, arg);
        if c != s.root {
          WaitSleepOther(s, z, c);
        }
      }
  }

  lemma WaitSleepOther(s: System, z: System, x: Pid)
    requires Good(s) && RootSees(s) && x == s.k.current && x != s.root && Slept(s.k, z.k, [WaitOf(x)])
    requires z.root == s.root && z.parent == s.parent && z.group == s.group
    requires forall p: Pid :: p != x ==> PlaceOf(z, p) == PlaceOf(s, p)
    ensures RootSees(z)
  {
    hide Inv, TreeOk, OwnWaits, NotMissed;
    InvParts(s.k);
    DriftSees(s, z, x);
  }

  lemma LockSees(s: System)
    requires Good(s) && RootSees(s) && Enabled(s, LockTurn) && s.k.current in s.k.procs && s.k.idle in s.k.procs
    ensures RootSees(DoLock(s))
  {
    hide Good, Inv, Sleep, NotMissed, Slept;
    GoodParts(s);
    if s.locked {
      SleepSlept(s.k, MUTEX_QUEUE);
      SleptSees(s, Sleep(s.k, MUTEX_QUEUE), [MUTEX_QUEUE], InLock);
    } else {
      WatchingSees(s, DoLock(s));
    }
  }

  lemma OtherStepsSee(s: System, e: Event)
    requires Good(s) && RootSees(s) && Enabled(s, e) && !e.Leave?
    ensures Inv(s.k) && RootSees(Next(s, e))
  {
    hide Good, Inv, Calm, Slept, Sleep, Select, Yield, WakeAll, WakeSingle, WakeSingleSelect, Kill, DoSpawn, DoWait,
        DoLock, RootSees;
    GoodParts(s);
    var z := Next(s, e);
    match e
    case Preempt => YieldCalm(s.k); CalmSees(s, z);
    case Block(q) => SleepSlept(s.k, q); SleptSees(s, z.k, [q], Elsewhere);
    case BlockSelect(qs) => SelectSlept(s.k, qs); SleptSees(s, z.k, qs, Elsewhere);
    case WakeUp(q, all, select) =>
      if all { WakeAllCalm(s.k, q, select); } else { WakeSingleCalm(s.k, q, select); }
      CalmSees(s, z);
    case Spawn(child) => SpawnSees(s, child);
    case SendKill(p) => KillCalm(s.k, p); CalmSees(s, z);
    case WaitTurn(arg, nohang) => WaitSees(s, arg, nohang);
    case LockTurn => LockSees(s);
    case Unlock => WakeSingleCalm(s.k, MUTEX_QUEUE, false); CalmSees(s, z);
  }

  // ---------------------------------------------------------------- exit

  /** The root goes on sleeping if somebody else's child exits. */
  lemma RootSleepsOn(k: Kernel, parent: Pid, root: Pid)
    requires Inv(k) && k.current != k.idle && parent in k.procs && parent != k.current && !IsFinished(k, parent)
    requires OwnWaits(k) && root != parent && root != k.current && IsSleeping(k, root)
    ensures IsSleeping(Exit(k, parent), root)
  {
    hide Reciprocal, ReadyExact, Exit, ExitMid, Waiters, OwnWaits;
    ExitSpec(k, parent);
    NotInForeignQueue(k, root, parent);
    assert ExitMid(k, parent).procs[root] == k.procs[root];
  }

  lemma NotInForeignQueue(k: Kernel, p: Pid, q: Pid)
    requires Inv(k) && OwnWaits(k) && p != q
    ensures p !in Waiters(k, WaitOf(q))
  {
    hide Reciprocal, ReadyExact;
    MatchedAt(k, p, WaitOf(q));
    assert WaitOf(q) !in Owners(k, p);
  }

  lemma LeaveSees(s: System)
    requires Good(s) && RootSees(s) && Enabled(s, Leave)
    ensures s.k.current in s.parent && (RootSees(DoLeave(s)) <==> !HandsOver(s, Leave))
  {
    hide Inv, Exit, Listed, NotMissed, OwnWaits;
    InvParts(s.k);
    var c := s.k.current;
    assert ParentOk(s, c);
    var par := s.parent[c];
    ExitDrift(s.k, par);
    var z := DoLeave(s);
    assert s.root != c && Drift(s.k, z.k, s.root);
    if par != s.root && IsSleeping(s.k, s.root) {
      RootSleepsOn(s.k, par, s.root);
      LeaveInherits(s, z);
    } else {
      assert !IsSleeping(z.k, s.root);
      RootAwake(z);
    }
  }

  lemma RootAwake(z: System)
    requires !IsSleeping(z.k, z.root)
    ensures RootSees(z)
  {
  }

  /** What the root misses afterwards is what it missed before or what it has just inherited. */
  lemma LeaveInherits(s: System, z: System)
    requires s.k.current in s.parent && s.parent[s.k.current] != s.root && s.k.current != s.root && RootSees(s)
    requires DriftExcept(s.k, z.k, s.k.current) && z.k.procs.Keys == s.k.procs.Keys
    requires IsSleeping(s.k, s.root) && IsSleeping(z.k, s.root)
    requires z.root == s.root && z.place == s.place && z.group == s.group
    requires z.parent == map x | x in s.parent :: if s.parent[x] == s.k.current then s.root else s.parent[x]
    requires forall p: Pid :: ParentDiffers(s, p)
    ensures RootSees(z) <==> !HandsOver(s, Leave)
  {
    var c := s.k.current;
    forall x: Pid ensures NotMissed(z, z.root, x) <==> !Inheritable(s, c, x) {
      assert NotMissed(s, s.root, x) && ParentDiffers(s, x);
      if x != c { assert Drift(s.k, z.k, x); }
    }
  }

  ghost predicate ParentDiffers(s: System, p: Pid) {
    p in s.parent ==> s.parent[p] != p
  }

  /** The law fails for the root in exactly one way: from a state in which the root misses nothing, a step
      makes it miss a child if and only if it is an exit that hands over a finished child to a sleeping root. */
  lemma RootMissesExactly(s: System, e: Event)
    requires Good(s) && RootSees(s) && Enabled(s, e)
    ensures Inv(s.k) && (e.Leave? ==> s.k.current in s.parent)
    ensures RootSees(Next(s, e)) <==> !HandsOver(s, e)
  {
    hide Good, RootSees, DoLeave;
    GoodParts(s);
    if e.Leave? {
      LeaveSees(s);
    } else {
      OtherStepsSee(s, e);
    }
  }

  /** No step of the run is such an exit. */
  ghost predicate NeverHandsOver(s: System, es: seq<Event>)
    requires Good(s) && Legal(s, es)
    decreases |es|
  {
    es == [] || (!HandsOver(s, es[0]) && (StepGood(s, es[0]); NeverHandsOver(Next(s, es[0]), es[1..])))
  }

  /** In runs without such exits waitpid loses no exit for any process, the root included. */
  lemma {:induction false} RunRootSees(s: System, es: seq<Event>)
    requires Good(s) && RootSees(s) && Legal(s, es) && NeverHandsOver(s, es)
    ensures RootSees(Run(s, es))
    decreases |es|
  {
    hide Good, RootSees, HandsOver, Next, Enabled;
    if es != [] {
      StepGood(s, es[0]);
      RootMissesExactly(s, es[0]);
      RunRootSees(Next(s, es[0]), es[1..]);
    }
  }

  // ---------------------------------------------------------------- a run from boot

  const WAITS: Proc := Proc(Sleeping, [WaitOf(1)], false)
  const QUEUES: map<Queue, seq<Pid>> := map[WaitOf(1) := [1]]

  // The kernel after each step: the root 1 starts 2 and waits for any child; 2 starts 3, 3 starts 4.
  const K0: Kernel := Kernel(map[0 := FRESH, 1 := FRESH], map[], [], 1, 0)
  const K1: Kernel := Kernel(map[0 := FRESH, 1 := FRESH, 2 := GOING], map[], [2], 1, 0)
  const K2: Kernel := Kernel(map[0 := FRESH, 1 := WAITS, 2 := GOING], QUEUES, [], 2, 0)
  const K3: Kernel := Kernel(map[0 := FRESH, 1 := WAITS, 2 := GOING, 3 := GOING], QUEUES, [3], 2, 0)
  const K4: Kernel := Kernel(map[0 := FRESH, 1 := WAITS, 2 := GOING, 3 := GOING], QUEUES, [2], 3, 0)
  const K5: Kernel := Kernel(map[0 := FRESH, 1 := WAITS, 2 := GOING, 3 := GOING, 4 := GOING], QUEUES, [2, 4], 3, 0)
  const K6: Kernel := Kernel(map[0 := FRESH, 1 := WAITS, 2 := GOING, 3 := GOING, 4 := GOING], QUEUES, [4, 3], 2, 0)
  const K7: Kernel := Kernel(map[0 := FRESH, 1 := WAITS, 2 := GOING, 3 := GOING, 4 := GOING], QUEUES, [3, 2], 4, 0)
  const K8: Kernel := Kernel(map[0 := FRESH, 1 := WAITS, 2 := GOING, 3 := GOING, 4 := Proc(Finished, [], false)],
      QUEUES, [2], 3, 0)

  const ANY: Place := InWaitpid(-1)

  const S0: System := System(K0, map[], map[], map[], map[], 1, false, 1, {})
  const S1: System := System(K1, map[2 := Elsewhere], map[2 := 1], map[1 := [2], 2 := []], map[2 := 1], 1, false, 1, {})
  const S2: System := System(K2, map[1 := ANY, 2 := Elsewhere], map[2 := 1], map[1 := [2], 2 := []], map[2 := 1], 1,
      false, 1, {})
  const S3: System :=
    System(K3, map[1 := ANY, 2 := Elsewhere, 3 := Elsewhere], map[2 := 1, 3 := 2], map[1 := [2], 2 := [3], 3 := []],
           map[2 := 1, 3 := 2], 1, false, 1, {})
  const S5: System :=
    System(K5, map[1 := ANY, 2 := Elsewhere, 3 := Elsewhere, 4 := Elsewhere], map[2 := 1, 3 := 2, 4 := 3],
           map[1 := [2], 2 := [3], 3 := [4], 4 := []], map[2 := 1, 3 := 2, 4 := 3], 1, false, 1, {})

  lemma Kernel1()
    ensures Fork(K0, 2) == K1
  {
    hide Fork;
    ForkQueues(K0, 2);
    assert K0.procs[2 := GOING] == K1.procs && [] + [2] == [2];
  }

  lemma Kernel2()
    ensures Sleep(K1, WaitOf(1)) == K2
  {
    hide Sleep;
    assert [2] == [2] + [] && [] + [1] == [1] && [] + [WaitOf(1)] == [WaitOf(1)];
    SleepFront(K1, WaitOf(1), 2, []);
    assert K1.procs[1 := WAITS][2 := GOING] == K2.procs && K1.queues[WaitOf(1) := [1]] == QUEUES;
  }

  lemma Kernel3()
    ensures Fork(K2, 3) == K3
  {
    hide Fork;
    ForkQueues(K2, 3);
    assert K2.procs[3 := GOING] == K3.procs && [] + [3] == [3];
  }

  /** A turn of processes that are all going. */
  lemma KernelTurn(k: Kernel, f: Pid, rest: seq<Pid>)
    requires k.idle in k.procs && k.current in k.procs && k.procs[k.current] == GOING && k.current != k.idle
    requires f in k.procs && k.procs[f] == GOING && k.ready == [f] + rest
    ensures Yield(k) == Kernel(k.procs, k.queues, rest + [k.current], f, k.idle)
  {
    hide Yield, MarkReady;
    YieldFront(k, f, rest);
    MarkReadyUnlocked(k, k.current);
    assert k.procs[k.current := GOING] == k.procs && k.procs[f := GOING] == k.procs;
  }

  lemma Kernel4()
    ensures Yield(K3) == K4
  {
    hide Yield;
    assert [3] == [3] + [] && [] + [2] == [2];
    KernelTurn(K3, 3, []);
  }

  lemma Kernel5()
    ensures Fork(K4, 4) == K5
  {
    hide Fork;
    ForkQueues(K4, 4);
    assert K4.procs[4 := GOING] == K5.procs && [2] + [4] == [2, 4];
  }

  lemma Kernel6()
    ensures Yield(K5) == K6
  {
    hide Yield;
    assert [2, 4] == [2] + [4] && [4] + [3] == [4, 3];
    KernelTurn(K5, 2, [4]);
  }

  lemma Kernel7()
    ensures Yield(K6) == K7
  {
    hide Yield;
    assert [4, 3] == [4] + [3] && [3] + [2] == [3, 2];
    KernelTurn(K6, 4, [3]);
  }

  lemma Kernel8()
    ensures Exit(K7, 3) == K8
  {
    hide Exit;
    assert [3, 2] == [3] + [2];
    ExitFront(K7, 3, 3, [2]);
    assert K7.procs[4 := Proc(Finished, [], false)][3 := GOING] == K8.procs;
  }

  const S4: System := WithKernel(S3, K4)
  const S6: System := WithKernel(S5, K6)
  const S7: System := WithKernel(S5, K7)
  const S8: System := WithKernel(S5, K8)

  const HISTORY: seq<Event> :=
    [Spawn(2), WaitTurn(-1, false), Spawn(3), Preempt, Spawn(4), Preempt, Preempt, Leave]

  lemma System2()
    ensures DoWait(S1, -1, false) == S2
  {
    hide Sleep;
    Kernel2();
    assert ChildrenOf(S1, 1) == [2];
    assert ScanChildren(S1, [2], 1, -1).NoneFinished?;
  }

  lemma System8()
    ensures DoLeave(S7) == S8
  {
    hide Exit;
    Kernel8();
    assert ChildrenOf(S7, 1) + ChildrenOf(S7, 4) == [2];
    assert S7.children[1 := [2]] == S7.children;
  }

  lemma StepOne()
    requires Inv(S0.k)
    ensures StepsTo(S0, Spawn(2), S1)
  {
    hide Inv, Fork;
    Kernel1();
    assert ChildrenOf(S0, 1) + [2] == [2];
  }

  lemma StepTwo()
    requires Inv(S1.k)
    ensures StepsTo(S1, WaitTurn(-1, false), S2)
  {
    hide Inv, DoWait;
    System2();
  }

  lemma StepThree()
    requires Inv(S2.k)
    ensures StepsTo(S2, Spawn(3), S3)
  {
    hide Inv, Fork;
    Kernel3();
    assert ChildrenOf(S2, 2) + [3] == [3];
  }

  lemma StepFour()
    requires Inv(S3.k)
    ensures StepsTo(S3, Preempt, S4)
  {
    hide Inv, Yield;
    Kernel4();
  }

  lemma StepFive()
    requires Inv(S4.k)
    ensures StepsTo(S4, Spawn(4), S5)
  {
    hide Inv, Fork;
    Kernel5();
    assert ChildrenOf(S4, 3) + [4] == [4];
  }

  lemma StepSix()
    requires Inv(S5.k)
    ensures StepsTo(S5, Preempt, S6)
  {
    hide Inv, Yield;
    Kernel6();
  }

  lemma StepSeven()
    requires Inv(S6.k)
    ensures StepsTo(S6, Preempt, S7)
  {
    hide Inv, Yield;
    Kernel7();
  }

  lemma StepEight()
    requires Inv(S7.k)
    ensures StepsTo(S7, Leave, S8)
  {
    hide Inv, DoLeave;
    System8();
  }

  const ROOT_PID: Pid := 1
  const IDLE_PID: Pid := 0

  /** The state in which the law is about to fail is reached from boot, and the run can go on from there. */
  lemma Reached(more: seq<Event>)
    ensures Good(S8) && Good(Boot(ROOT_PID, IDLE_PID))
    ensures Legal(S8, more) ==>
              && Legal(Boot(ROOT_PID, IDLE_PID), HISTORY + more)
              && Run(Boot(ROOT_PID, IDLE_PID), HISTORY + more) == Run(S8, more)
  {
    hide Good, Inv, Legal, Run, StepsTo, S0, S1, S2, S3, S4, S5, S6, S7, S8;
    BootIsS0();
    var h := HISTORY + more;
    assert h[..8] == HISTORY && h[8..] == more;
    StepOne(); Advances(S0, Spawn(2), S1, h);
    StepTwo(); Advances(S1, WaitTurn(-1, false), S2, h[1..]);
    StepThree(); Advances(S2, Spawn(3), S3, h[2..]);
    StepFour(); Advances(S3, Preempt, S4, h[3..]);
    StepFive(); Advances(S4, Spawn(4), S5, h[4..]);
    StepSix(); Advances(S5, Preempt, S6, h[5..]);
    StepSeven(); Advances(S6, Preempt, S7, h[6..]);
    StepEight(); Advances(S7, Leave, S8, h[7..]);
    assert h[1..][1..] == h[2..] && h[2..][1..] == h[3..] && h[3..][1..] == h[4..];
    assert h[4..][1..] == h[5..] && h[5..][1..] == h[6..] && h[6..][1..] == h[7..] && h[7..][1..] == h[8..];
  }

  lemma BootIsS0()
    ensures Boot(ROOT_PID, IDLE_PID) == S0 && Good(S0) && Inv(S0.k)
  {
    hide Good, Inv;
    BootGood(ROOT_PID, IDLE_PID);
    assert Boot(ROOT_PID, IDLE_PID).k.procs == K0.procs;
    GoodParts(S0);
  }

  lemma AboutToFail()
    ensures RootSees(S8) && HandsOver(S8, Leave) && Enabled(S8, Leave)
  {
    assert Inheritable(S8, 3, 4);
  }

  lemma LastStep(s: System, e: Event)
    requires Good(s) && Enabled(s, e)
    ensures Inv(s.k) && (e.Leave? ==> s.k.current in s.parent) && Legal(s, [e]) && Run(s, [e]) == Next(s, e)
  {
    hide Good, Inv, Next, Enabled;
    GoodParts(s);
    StepGood(s, e);
    assert [e][1..] == [];
  }

  /** For the root the law fails: in a run from boot, exit hands it a finished grandchild it waits for
      without waking it. */
  lemma RootMayMissExit()
    ensures Good(Boot(ROOT_PID, IDLE_PID)) && Legal(Boot(ROOT_PID, IDLE_PID), HISTORY + [Leave])
    ensures !RootSees(Run(Boot(ROOT_PID, IDLE_PID), HISTORY + [Leave]))
  {
    hide Good, RootSees, HandsOver, Enabled, Legal, Run, S8;
    Reached([Leave]);
    AboutToFail();
    LastStep(S8, Leave);
    RootMissesExactly(S8, Leave);
  }
}
