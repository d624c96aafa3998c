/** Processes on top of the scheduler: the process tree with fork, exit and waitpid, and a mutex
    built on the wait queues, as one step machine. */
module ProcessRuns {
  import opened Basics
  import opened Scheduler

  /** Where a process is when it is not running: in user code (or any other kernel sleep), or inside
      the loop of waitpid or of mutex_lock. */
  datatype Place = Elsewhere | InWaitpid(arg: int) | InLock

  const MUTEX_QUEUE := Channel(0)

  datatype System = System(
    k: Kernel,
    place: map<Pid, Place>,
    parent: map<Pid, Pid>,
    children: map<Pid, seq<Pid>>,   // in list order
    group: map<Pid, int>,
    root: Pid,
    locked: bool,
    holder: Pid,                    // meaningful while locked
    critical: set<Pid>)             // returned from mutex_lock, not yet in mutex_unlock

  datatype Event =
    | Preempt
    | Block(q: Queue)
    | BlockSelect(qs: seq<Queue>)
    | WakeUp(q: Queue, all: bool, select: bool)
    | Spawn(child: Pid)
    | SendKill(target: Pid)
    | Leave
    | WaitTurn(arg: int, nohang: bool)
    | LockTurn
    | Unlock

  function PlaceOf(s: System, p: Pid): Place {
    if p in s.place then s.place[p] else Elsewhere
  }

  function ChildrenOf(s: System, p: Pid): seq<Pid> {
    if p in s.children then s.children[p] else []
  }

  function GroupOf(s: System, p: Pid): int {
    if p in s.group then s.group[p] else 0
  }

  predicate IsFinished(k: Kernel, p: Pid) {
    p in k.procs && k.procs[p].state.Finished?
  }

  /** waitpid_can_pick */
  predicate CanPick(s: System, child: Pid, waiter: Pid, arg: int) {
    if arg < -1 then child == -arg
    else if arg == 0 then GroupOf(s, child) == GroupOf(s, waiter)
    else if arg > 0 then child == arg
    else true
  }

  // ---------------------------------------------------------------- the scan of waitpid

  datatype Pick = NoChild | NoneFinished | Picked(child: Pid)

  /** The loop over the children: whether any matches, and the first that has finished. */
  function ScanChildren(s: System, cs: seq<Pid>, waiter: Pid, arg: int): (r: Pick)
    ensures r.Picked? ==> exists i :: 0 <= i < |cs| && FirstMatch(s, cs, waiter, arg, i) && r.child == cs[i]
    ensures r.Picked? ==> r.child in cs && CanPick(s, r.child, waiter, arg) && IsFinished(s.k, r.child)
    ensures !r.Picked? ==> forall c :: c in cs && CanPick(s, c, waiter, arg) ==> !IsFinished(s.k, c)
    ensures r.NoChild? <==> forall c :: c in cs ==> !CanPick(s, c, waiter, arg)
  {
    if cs == [] then NoChild
    else if CanPick(s, cs[0], waiter, arg) then
      if IsFinished(s.k, cs[0]) then
        assert FirstMatch(s, cs, waiter, arg, 0);
        Picked(cs[0])
      else
        var r := ScanChildren(s, cs[1..], waiter, arg);
        FirstMatchShift(s, cs, waiter, arg);
        if r.NoChild? then NoneFinished else r
    else
      FirstMatchShift(s, cs, waiter, arg);
      ScanChildren(s, cs[1..], waiter, arg)
  }

  /** Child `i` matches and has finished, and no child before it does both. */
  ghost predicate FirstMatch(s: System, cs: seq<Pid>, waiter: Pid, arg: int, i: nat) {
    && i < |cs| && Matches(s, cs[i], waiter, arg)
    && forall j :: 0 <= j < i ==> !Matches(s, cs[j], waiter, arg)
  }

  predicate Matches(s: System, child: Pid, waiter: Pid, arg: int) {
    CanPick(s, child, waiter, arg) && IsFinished(s.k, child)
  }

  lemma FirstMatchShift(s: System, cs: seq<Pid>, waiter: Pid, arg: int)
    requires cs != [] && !Matches(s, cs[0], waiter, arg)
    ensures forall i: nat :: FirstMatch(s, cs[1..], waiter, arg, i) ==> FirstMatch(s, cs, waiter, arg, i + 1)
  {
    forall i: nat | FirstMatch(s, cs[1..], waiter, arg, i) ensures FirstMatch(s, cs, waiter, arg, i + 1) {
      forall j | 0 <= j < i + 1 ensures !Matches(s, cs[j], waiter, arg) {
        if j > 0 { assert !Matches(s, cs[1..][j - 1], waiter, arg); }
      }
    }
  }

  /** The scan as the loop it is: `was` and `child` updated until a finished match is found. */
  method FindChild(s: System, cs: seq<Pid>, waiter: Pid, arg: int) returns (was: bool, child: Pick)
    ensures child == ScanChildren(s, cs, waiter, arg) && was == !child.NoChild?
  {
    was, child := false, NoChild;
    assert cs[0..] == cs;
    for i := 0 to |cs|
      invariant was == child.NoneFinished? && !child.Picked?
      invariant ScanChildren(s, cs, waiter, arg) ==
                var r := ScanChildren(s, cs[i..], waiter, arg); if was && r.NoChild? then NoneFinished else r
    {
      assert cs[i..][0] == cs[i] && cs[i..][1..] == cs[i + 1..];
      if CanPick(s, cs[i], waiter, arg) {
        was, child := true, NoneFinished;
        if IsFinished(s.k, cs[i]) {
          return true, Picked(cs[i]);
        }
      }
    }
  }

  // ---------------------------------------------------------------- steps

  predicate Shared(q: Queue) {
    q.Channel? && q != MUTEX_QUEUE
  }

  /** A process inside waitpid or mutex_lock continues there; a mutex is unlocked by its holder. */
  predicate Enabled(s: System, e: Event) {
    var c := s.k.current;
    var at := PlaceOf(s, c);
    match e
    case WaitTurn(arg, nohang) => c != s.k.idle && (at.Elsewhere? || (at == InWaitpid(arg) && !nohang))
    case LockTurn => c != s.k.idle && !at.InWaitpid?
    case Unlock => at.Elsewhere? && c in s.critical
    case Preempt => at.Elsewhere?
    case Block(q) => at.Elsewhere? && c != s.k.idle && Shared(q)
    case BlockSelect(qs) => at.Elsewhere? && c != s.k.idle && forall q :: q in qs ==> Shared(q)
    case WakeUp(q, _, _) => at.Elsewhere? && Shared(q)
    case Spawn(child) => at.Elsewhere? && c != s.k.idle && child !in s.k.procs
    case SendKill(_) => at.Elsewhere?
    case Leave => at.Elsewhere? && c != s.k.idle && c != s.root
  }

  function WithKernel(s: System, k: Kernel): System {
    System(k, s.place, s.parent, s.children, s.group, s.root, s.locked, s.holder, s.critical)
  }

  function WithPlace(s: System, k: Kernel, at: Place): System {
    System(k, s.place[s.k.current := at], s.parent, s.children, s.group, s.root, s.locked, s.holder, s.critical)
  }

  /** fork(): the child hangs below its creator, whose pid becomes its group. */
  function DoSpawn(s: System, child: Pid): System
    requires s.k.current in s.k.procs
  {
    var c := s.k.current;
    System(Fork(s.k, child), s.place[child := Elsewhere], s.parent[child := c],
           s.children[c := ChildrenOf(s, c) + [child]][child := []], s.group[child := c],
           s.root, s.locked, s.holder, s.critical)
  }

  /** exit(): the children go to the root, then the parent is woken. */
  function DoLeave(s: System): System
    requires s.k.current in s.k.procs && s.k.current in s.parent
  {
    var c := s.k.current;
    System(Exit(s.k, s.parent[c]), s.place,
           map x | x in s.parent :: if s.parent[x] == c then s.root else s.parent[x],
           s.children[s.root := ChildrenOf(s, s.root) + ChildrenOf(s, c)], s.group,
           s.root, s.locked, s.holder, s.critical)
  }

  /** One turn of the loop in waitpid. */
  function DoWait(s: System, arg: int, nohang: bool): System
    requires s.k.current in s.k.procs && s.k.idle in s.k.procs
  {
    var c := s.k.current;
    match ScanChildren(s, ChildrenOf(s, c), c, arg)
    case NoChild => WithPlace(s, s.k, Elsewhere)
    case Picked(child) =>
      System(Destroy(s.k, child), s.place[c := Elsewhere], s.parent - {child},
             s.children[c := Delete(ChildrenOf(s, c), child)], s.group, s.root, s.locked, s.holder, s.critical)
    case NoneFinished =>
      if nohang then WithPlace(s, s.k, Elsewhere) else WithPlace(s, Sleep(s.k, WaitOf(c)), InWaitpid(arg))
  }

  /** One turn of the loop in mutex_lock. */
  function DoLock(s: System): System
    requires s.k.current in s.k.procs && s.k.idle in s.k.procs
  {
    var c := s.k.current;
    if s.locked then WithPlace(s, Sleep(s.k, MUTEX_QUEUE), InLock)
    else System(s.k, s.place[c := Elsewhere], s.parent, s.children, s.group, s.root, true, c, s.critical + {c})
  }

  function DoUnlock(s: System): System {
    System(WakeSingle(s.k, MUTEX_QUEUE), s.place, s.parent, s.children, s.group, s.root,
           false, s.holder, s.critical - {s.k.current})
  }

  ghost function Next(s: System, e: Event): System
    requires Inv(s.k) && Enabled(s, e) && (e.Leave? ==> s.k.current in s.parent)
  {
    match e
    case Preempt => WithKernel(s, Yield(s.k))
    case Block(q) => WithPlace(s, Sleep(s.k, q), Elsewhere)
    case BlockSelect(qs) => WithPlace(s, Select(s.k, qs), Elsewhere)
    case WakeUp(q, all, select) =>
      WithKernel(s, if all then WakeAll(s.k, q, select)
                    else if select then WakeSingleSelect(s.k, q) else WakeSingle(s.k, q))
    case Spawn(child) => DoSpawn(s, child)
    case SendKill(p) => WithKernel(s, Kill(s.k, p))
    case Leave => DoLeave(s)
    case WaitTurn(arg, nohang) => DoWait(s, arg, nohang)
    case LockTurn => DoLock(s)
    case Unlock => DoUnlock(s)
  }

  // ---------------------------------------------------------------- invariants

  /** Every process but root and idle has a parent, and no parent has finished; the children list of
      a live process is the parent relation read the other way. */
  ghost predicate TreeOk(s: System) {
    && s.root in s.k.procs && s.root != s.k.idle && !IsFinished(s.k, s.root) && s.root !in s.parent
    && (forall p: Pid :: p in s.parent ==> p in s.k.procs && ParentOk(s, p))
    && (forall p: Pid :: p in s.k.procs && p != s.root && p != s.k.idle ==> p in s.parent)
    && (forall p: Pid, c: Pid :: p in s.k.procs && !IsFinished(s.k, p) ==> Listed(s, p, c))
  }

  ghost predicate ParentOk(s: System, p: Pid)
    requires p in s.parent
  {
    s.parent[p] in s.k.procs && !IsFinished(s.k, s.parent[p]) && s.parent[p] != p
  }

  ghost predicate Listed(s: System, p: Pid, c: Pid) {
    multiset(ChildrenOf(s, p))[c] == if c in s.parent && s.parent[c] == p then 1 else 0
  }

  /** No process but the root sleeps in waitpid while it has a finished child it waits for. */
  ghost predicate NoLostExit(s: System) {
    forall p: Pid, c: Pid :: p != s.root ==> NotMissed(s, p, c)
  }

  ghost predicate NotMissed(s: System, p: Pid, c: Pid) {
    IsSleeping(s.k, p) && PlaceOf(s, p).InWaitpid? && c in s.parent && s.parent[c] == p && IsFinished(s.k, c) ==>
      !CanPick(s, c, p, PlaceOf(s, p).arg)
  }

  /** At most one process is between lock and unlock, and it is the recorded owner. */
  ghost predicate OneHolder(s: System) {
    s.critical == if s.locked then {s.holder} else {}
  }

  ghost predicate WaitersAreLocking(s: System) {
    forall p: Pid :: p in Waiters(s.k, MUTEX_QUEUE) ==> PlaceOf(s, p).InLock?
  }

  /** If someone waits for the mutex, it is locked or a woken process is on its way to take it. */
  ghost predicate NoLostWakeup(s: System) {
    Waiters(s.k, MUTEX_QUEUE) != [] ==> s.locked || exists p: Pid :: OnItsWay(s, p)
  }

  ghost predicate OnItsWay(s: System, p: Pid) {
    IsRunnable(s.k, p) && PlaceOf(s, p).InLock?
  }

  /** Only a process itself waits in its waitpid queue. */
  ghost predicate OwnWaits(k: Kernel) {
    forall p: Pid, q: Pid :: WaitOf(q) in Owners(k, p) ==> q == p
  }

  ghost predicate Good(s: System) {
    && Inv(s.k) && TreeOk(s) && NoLostExit(s) && OneHolder(s) && WaitersAreLocking(s) && NoLostWakeup(s)
    && OwnWaits(s.k)
  }

  // ---------------------------------------------------------------- what a step does to a process

  /** `p` keeps its state and queues, or has been made runnable and waits nowhere. */
  ghost predicate Drift(k: Kernel, r: Kernel, p: Pid) {
    p in k.procs ==>
      && p in r.procs
      && (|| (r.procs[p].state == k.procs[p].state && r.procs[p].owners == k.procs[p].owners)
          || (!IsFinished(k, p) && IsRunnable(r, p) && r.procs[p].owners == []))
  }

  ghost predicate DriftExcept(k: Kernel, r: Kernel, x: Pid) {
    forall p: Pid :: p != x ==> Drift(k, r, p)
  }

  ghost predicate DriftAll(k: Kernel, r: Kernel) {
    forall p: Pid :: Drift(k, r, p)
  }

  lemma DriftCompose(k: Kernel, m: Kernel, r: Kernel, x: Pid)
    requires DriftExcept(k, m, x) && DriftAll(m, r)
    ensures DriftExcept(k, r, x)
  {
    forall p: Pid | p != x ensures Drift(k, r, p) {
      assert Drift(k, m, p) && Drift(m, r, p);
    }
  }

  lemma WokenDrift(k: Kernel, r: Kernel, p: Pid)
    requires Woken(k, r, p) && !IsFinished(k, p)
    ensures DriftAll(k, r) && r.procs.Keys == k.procs.Keys
  {
    hide Reciprocal;
  }

  lemma SwitchedDrift(k: Kernel, r: Kernel)
    requires Switched(k, r)
    ensures DriftAll(k, r) && r.procs.Keys == k.procs.Keys
  {
    hide Reciprocal;
  }

  lemma AllWokenDrift(k: Kernel, r: Kernel, q: Queue)
    requires Base(k) && Base(r) && AllWoken(k, r, q)
    ensures DriftAll(k, r) && r.procs.Keys == k.procs.Keys
  {
    hide Reciprocal, Waiters;
    forall p: Pid ensures Drift(k, r, p) {
      if p in k.procs {
        assert Touched(k, r, q, p);
        if p in Waiters(k, q) { NotWaitingContra(k, q, p); }
      }
    }
  }

  lemma NotWaitingContra(k: Kernel, q: Queue, p: Pid)
    requires Base(k) && p in Waiters(k, q)
    ensures IsSleeping(k, p)
  {
    if !IsSleeping(k, p) { NotWaiting(k, q, p); }
  }

  /** A step after which everybody has drifted. */
  ghost predicate Calm(k: Kernel, r: Kernel) {
    Inv(r) && DriftAll(k, r) && r.procs.Keys == k.procs.Keys && r.idle == k.idle
  }

  /** A step in which the current process fell asleep on queues among `qs`. */
  ghost predicate Slept(k: Kernel, r: Kernel, qs: seq<Queue>) {
    && Inv(r) && DriftExcept(k, r, k.current) && r.procs.Keys == k.procs.Keys && r.idle == k.idle
    && IsSleeping(r, k.current)
    && forall q: Queue :: q in Owners(r, k.current) ==> q in qs
  }

  lemma YieldCalm(k: Kernel)
    requires Inv(k)
    ensures Calm(k, Yield(k))
  {
    hide Reciprocal, ReadyExact, Yield, MarkReady;
    YieldSpec(k);
    if k.current == k.idle {
      SwitchedDrift(k, Yield(k));
    } else {
      var m := MarkReady(k, k.current);
      MarkReadySpec(k, k.current);
      SwitchedDrift(m, Yield(k));
      DriftCompose(k, m, Yield(k), k.idle);
      assert Drift(k, m, k.idle) && Drift(m, Yield(k), k.idle);
    }
  }

  lemma RegisteredSlept(k: Kernel, r: Kernel, qs: seq<Queue>)
    requires Inv(k) && k.current != k.idle && Registering(k, r)
    requires forall q: Queue :: q in Owners(r, k.current) ==> q in qs
    ensures Slept(k, Yield(FallAsleep(r)), qs)
  {
    hide Reciprocal, ReadyExact, Yield;
    AsleepSpec(k, r);
    var z := FallAsleep(r);
    SwitchedDrift(z, Yield(z));
    DriftCompose(k, z, Yield(z), k.current);
  }

  lemma SleepSlept(k: Kernel, q: Queue)
    requires Inv(k) && k.current != k.idle
    ensures Slept(k, Sleep(k, q), [q])
  {
    hide Reciprocal, ReadyExact, Yield;
    OwnKeeps(k, q);
    RegisteredSlept(k, OwnBlock(k, k.current, q), [q]);
  }

  lemma SelectSlept(k: Kernel, qs: seq<Queue>)
    requires Inv(k) && k.current != k.idle
    ensures Slept(k, Select(k, qs), qs)
  {
    hide Reciprocal, ReadyExact, Yield, OwnEach;
    OwnEachKeeps(k, qs);
    RegisteredSlept(k, OwnEach(k, k.current, qs), qs);
  }

  lemma OneWokenCalm(k: Kernel, r: Kernel, p: Pid)
    requires Inv(k) && Woken(k, r, p) && IsSleeping(k, p)
    ensures Calm(k, r)
  {
    hide Reciprocal, ReadyExact;
    WokenKeeps(k, r, p, {k.current, k.idle});
    WokenDrift(k, r, p);
  }

  lemma WakeSingleCalm(k: Kernel, q: Queue, select: bool)
    requires Inv(k)
    ensures Calm(k, if select then WakeSingleSelect(k, q) else WakeSingle(k, q))
  {
    hide Reciprocal, ReadyExact, Woken;
    if Waiters(k, q) != [] {
      if select {
        WakeSingleSelectSpec(k, q);
        OneWokenCalm(k, WakeSingleSelect(k, q), LastWaiter(k, q));
      } else {
        WakeSingleSpec(k, q);
        OneWokenCalm(k, WakeSingle(k, q), LastWaiter(k, q));
      }
    }
  }

  lemma WakeAllCalm(k: Kernel, q: Queue, select: bool)
    requires Inv(k)
    ensures Calm(k, WakeAll(k, q, select))
  {
    hide Reciprocal, ReadyExact, WakeAll, Waiters;
    WakeAllSpec(k, q, select, {k.current, k.idle});
    var r := WakeAll(k, q, select);
    AllWokenDrift(k, r, q);
    assert Drift(k, r, k.current);
  }

  lemma KillCalm(k: Kernel, p: Pid)
    requires Inv(k)
    ensures Calm(k, Kill(k, p))
  {
    hide Reciprocal, ReadyExact, Signal;
    KillSpec(k, p);
    if Kill(k, p) != k {
      WokenDrift(k, Kill(k, p), p);
    }
  }

  /** exit(): the leaver is finished, its parent runnable, everybody else has drifted. */
  lemma ExitDrift(k: Kernel, parent: Pid)
    requires Inv(k) && k.current != k.idle && parent in k.procs && parent != k.current && !IsFinished(k, parent)
    ensures var r := Exit(k, parent);
            && Inv(r) && DriftExcept(k, r, k.current) && r.procs.Keys == k.procs.Keys && r.idle == k.idle
            && IsFinished(r, k.current) && IsRunnable(r, parent)
  {
    hide Reciprocal, ReadyExact, Exit, ExitMid, Waiters;
    ExitSpec(k, parent);
    ExitMidSpec(k, parent);
    var m, r := ExitMid(k, parent), Exit(k, parent);
    SwitchedDrift(m, r);
    forall p: Pid | p != k.current ensures Drift(k, m, p) {
      if p in k.procs && p in Waiters(k, WaitOf(parent)) {
        NotWaitingContra(k, WaitOf(parent), p);
      }
    }
    DriftCompose(k, m, r, k.current);
    assert Drift(m, r, k.current) && Drift(m, r, parent);
  }

  /** Nobody joins a queue by drifting. */
  lemma NoNewWaiter(k: Kernel, r: Kernel, p: Pid, q: Queue)
    requires Reciprocal(k) && Reciprocal(r) && p in k.procs && Drift(k, r, p) && p in Waiters(r, q)
    ensures p in Waiters(k, q)
  {
    hide Reciprocal;
    MatchedAt(k, p, q);
    MatchedAt(r, p, q);
  }

  // ---------------------------------------------------------------- preservation

  lemma OwnWaitsDrift(k: Kernel, r: Kernel, x: Pid)
    requires OwnWaits(k) && DriftExcept(k, r, x) && r.procs.Keys == k.procs.Keys
    requires forall q: Pid :: WaitOf(q) in Owners(r, x) ==> q == x
    ensures OwnWaits(r)
  {
    forall p: Pid, q: Pid | WaitOf(q) in Owners(r, p) ensures q == p {
      if p != x {
        assert p in r.procs.Keys && Drift(k, r, p);
        assert WaitOf(q) in Owners(k, p);
      }
    }
  }

  /** A process that is awake waits nowhere, so it needs no care. */
  lemma OwnWaitsAwake(k: Kernel, r: Kernel, x: Pid)
    requires OwnWaits(k) && DriftExcept(k, r, x) && r.procs.Keys == k.procs.Keys && Inv(r) && !IsSleeping(r, x)
    ensures OwnWaits(r)
  {
    hide Inv, OwnWaits;
    forall q: Pid ensures WaitOf(q) !in Owners(r, x) {
      NoLocks(r, x, WaitOf(q));
    }
    OwnWaitsDrift(k, r, x);
  }

  lemma OwnWaitsFewer(k: Kernel, r: Kernel)
    requires OwnWaits(k) && forall p: Pid :: Owners(r, p) == Owners(k, p) || Owners(r, p) == []
    ensures OwnWaits(r)
  {
    forall p: Pid, q: Pid | WaitOf(q) in Owners(r, p) ensures q == p {
      assert WaitOf(q) in Owners(k, p);
    }
  }

  /** The same process tree, with nobody newly finished. */
  ghost predicate SameTree(s: System, z: System) {
    && z.parent == s.parent && z.children == s.children && z.group == s.group && z.root == s.root
    && z.k.procs.Keys == s.k.procs.Keys && z.k.idle == s.k.idle
    && forall p: Pid :: IsFinished(z.k, p) == IsFinished(s.k, p)
  }

  lemma SameTreeOk(s: System, z: System)
    requires TreeOk(s) && SameTree(s, z)
    ensures TreeOk(z)
  {
    forall p: Pid | p in z.parent ensures p in z.k.procs && ParentOk(z, p) {
      assert ParentOk(s, p);
    }
    forall p: Pid, c: Pid | p in z.k.procs && !IsFinished(z.k, p) ensures Listed(z, p, c) {
      assert Listed(s, p, c);
    }
  }

  /** Sleepers in waitpid are as before, except for `x`, which has just checked. */
  lemma SameSleepers(s: System, z: System, x: Pid)
    requires NoLostExit(s) && SameTree(s, z)
    requires forall p: Pid :: p != x && IsSleeping(z.k, p) ==> IsSleeping(s.k, p) && PlaceOf(z, p) == PlaceOf(s, p)
    requires forall c: Pid :: x != z.root ==> NotMissed(z, x, c)
    ensures NoLostExit(z)
  {
    forall p: Pid, c: Pid | p != z.root ensures NotMissed(z, p, c) {
      assert NotMissed(s, p, c);
    }
  }

  lemma DriftFinished(k: Kernel, r: Kernel, x: Pid)
    requires DriftExcept(k, r, x) && r.procs.Keys == k.procs.Keys && !IsFinished(k, x) && !IsFinished(r, x)
    ensures forall p: Pid :: IsFinished(r, p) == IsFinished(k, p)
    ensures forall p: Pid :: p != x && IsSleeping(r, p) ==> IsSleeping(k, p)
    ensures forall p: Pid :: p != x && IsRunnable(k, p) ==> IsRunnable(r, p)
  {
    forall p: Pid ensures IsFinished(r, p) == IsFinished(k, p) {
      if p != x { assert Drift(k, r, p); }
    }
    forall p: Pid | p != x && IsSleeping(r, p) ensures IsSleeping(k, p) {
      assert Drift(k, r, p);
    }
    forall p: Pid | p != x && IsRunnable(k, p) ensures IsRunnable(r, p) {
      assert Drift(k, r, p);
    }
  }

  lemma MutexQueueDrift(s: System, z: System, x: Pid)
    requires Inv(s.k) && Inv(z.k) && DriftExcept(s.k, z.k, x) && z.k.procs.Keys == s.k.procs.Keys
    requires MUTEX_QUEUE !in Owners(z.k, x)
    ensures forall p: Pid :: p in Waiters(z.k, MUTEX_QUEUE) ==> p in Waiters(s.k, MUTEX_QUEUE) && p != x
  {
    hide ReadyExact, Reciprocal;
    forall p: Pid | p in Waiters(z.k, MUTEX_QUEUE) ensures p in Waiters(s.k, MUTEX_QUEUE) && p != x {
      NotWaitingContra(z.k, MUTEX_QUEUE, p);
      MatchedAt(z.k, p, MUTEX_QUEUE);
      assert Drift(s.k, z.k, p);
      NoNewWaiter(s.k, z.k, p, MUTEX_QUEUE);
    }
  }

  /** Steps that only wake or rotate processes. */
  lemma CalmGood(s: System, r: Kernel)
    requires Good(s) && Calm(s.k, r)
    ensures Good(WithKernel(s, r))
  {
    hide Inv, TreeOk, NoLostExit, Waiters, MUTEX_QUEUE, OwnWaits;
    var z := WithKernel(s, r);
    var x := s.k.idle;
    InvParts(s.k);
    InvParts(r);
    OwnWaitsAwake(s.k, r, x);
    DriftFinished(s.k, r, x);
    assert SameTree(s, z);
    SameTreeOk(s, z);
    SameSleepers(s, z, x);
    NoLocks(r, x, MUTEX_QUEUE);
    MutexQueueDrift(s, z, x);
    if Waiters(r, MUTEX_QUEUE) != [] {
      var w := LastWaiter(r, MUTEX_QUEUE);
      assert w in Waiters(s.k, MUTEX_QUEUE);
      if !s.locked {
        var p: Pid :| OnItsWay(s, p);
        assert OnItsWay(z, p);
      }
    }
  }

  lemma InvParts(k: Kernel)
    requires Inv(k)
    ensures Base(k) && Reciprocal(k) && IsRunnable(k, k.current) && IsRunnable(k, k.idle)
    ensures !IsFinished(k, k.current) && !IsFinished(k, k.idle) && !IsSleeping(k, k.idle)
  {
  }

  lemma NoLocks(k: Kernel, p: Pid, q: Queue)
    requires Inv(k) && !IsSleeping(k, p)
    ensures q !in Owners(k, p)
  {
  }

  /** Steps in which the current process falls asleep, leaving it at `at`. */
  lemma SleptGood(s: System, r: Kernel, qs: seq<Queue>, at: Place)
    requires Good(s) && Slept(s.k, r, qs)
    requires MUTEX_QUEUE in qs ==> s.locked && at.InLock?
    requires forall q: Pid :: WaitOf(q) in qs ==> q == s.k.current
    requires PlaceOf(s, s.k.current).InLock? ==> s.locked
    requires forall c: Pid :: s.k.current != s.root ==> NotMissed(WithPlace(s, r, at), s.k.current, c)
    ensures Good(WithPlace(s, r, at))
  {
    hide Inv, TreeOk, NoLostExit, Waiters, OwnWaits, WaitersAreLocking, NoLostWakeup;
    var z := WithPlace(s, r, at);
    var x := s.k.current;
    InvParts(s.k);
    InvParts(r);
    OwnWaitsDrift(s.k, r, x);
    DriftFinished(s.k, r, x);
    assert SameTree(s, z);
    SameTreeOk(s, z);
    SameSleepers(s, z, x);
    SleptMutex(s, r, at);
  }

  lemma SleptMutex(s: System, r: Kernel, at: Place)
    requires Inv(s.k) && Inv(r) && DriftExcept(s.k, r, s.k.current) && r.procs.Keys == s.k.procs.Keys
    requires WaitersAreLocking(s) && NoLostWakeup(s) && (PlaceOf(s, s.k.current).InLock? ==> s.locked)
    requires MUTEX_QUEUE in Owners(r, s.k.current) ==> s.locked && at.InLock?
    requires forall p: Pid :: p != s.k.current && IsRunnable(s.k, p) ==> IsRunnable(r, p)
    ensures WaitersAreLocking(WithPlace(s, r, at)) && NoLostWakeup(WithPlace(s, r, at))
  {
    hide Inv, Waiters;
    var z, x := WithPlace(s, r, at), s.k.current;
    InvParts(s.k);
    InvParts(r);
    if MUTEX_QUEUE in Owners(r, x) {
      forall p: Pid | p in Waiters(r, MUTEX_QUEUE) ensures PlaceOf(z, p).InLock? {
        if p != x {
          NotWaitingContra(r, MUTEX_QUEUE, p);
          assert Drift(s.k, r, p);
          NoNewWaiter(s.k, r, p, MUTEX_QUEUE);
        }
      }
    } else {
      MutexQueueDrift(s, z, x);
      if Waiters(r, MUTEX_QUEUE) != [] && !s.locked {
        assert LastWaiter(r, MUTEX_QUEUE) in Waiters(s.k, MUTEX_QUEUE);
        var p: Pid :| OnItsWay(s, p);
        assert OnItsWay(z, p);
      }
    }
  }

  lemma SpawnListed(s: System, z: System, child: Pid, p: Pid, x: Pid)
    requires z.parent == s.parent[child := s.k.current]
    requires z.children == s.children[s.k.current := ChildrenOf(s, s.k.current) + [child]][child := []]
    requires child != s.k.current && child !in s.parent
    requires p != child ==> Listed(s, p, x)
    requires x in s.parent ==> s.parent[x] != child
    ensures Listed(z, p, x)
  {
  }

  lemma SpawnTree(s: System, child: Pid, i: bool)
    requires TreeOk(s) && Inv(s.k) && child !in s.k.procs && s.k.current != s.k.idle
    requires var z := DoSpawn(s, child); z.k.procs == s.k.procs[child := Proc(Running, [], i)] && z.k.idle == s.k.idle
    ensures TreeOk(DoSpawn(s, child))
  {
    hide Inv, Fork, Listed;
    InvParts(s.k);
    var z, c := DoSpawn(s, child), s.k.current;
    forall p: Pid | p in z.parent ensures p in z.k.procs && ParentOk(z, p) {
      if p != child { assert ParentOk(s, p); }
    }
    forall p: Pid, x: Pid | p in z.k.procs && !IsFinished(z.k, p) ensures Listed(z, p, x) {
      if x in s.parent { assert ParentOk(s, x); }
      SpawnListed(s, z, child, p, x);
    }
  }

  lemma SpawnGood(s: System, child: Pid)
    requires Good(s) && Enabled(s, Spawn(child))
    ensures Good(DoSpawn(s, child))
  {
    hide Inv, TreeOk, Waiters, Fork, OwnWaits;
    InvParts(s.k);
    ForkSpec(s.k, child);
    var z := DoSpawn(s, child);
    var i :| z.k.procs == s.k.procs[child := Proc(Running, [], i)];
    SpawnTree(s, child, i);
    InvParts(z.k);
    OwnWaitsFewer(s.k, z.k);
    forall p: Pid, x: Pid | p != z.root ensures NotMissed(z, p, x) {
      assert NotMissed(s, p, x);
    }
    forall p: Pid | p in Waiters(z.k, MUTEX_QUEUE) ensures p in Waiters(s.k, MUTEX_QUEUE) && p != child {
      NotWaitingContra(z.k, MUTEX_QUEUE, p);
      assert Drift(s.k, z.k, p);
      NoNewWaiter(s.k, z.k, p, MUTEX_QUEUE);
    }
    if Waiters(z.k, MUTEX_QUEUE) != [] && !s.locked {
      assert LastWaiter(z.k, MUTEX_QUEUE) in Waiters(s.k, MUTEX_QUEUE);
      var p: Pid :| OnItsWay(s, p);
      assert OnItsWay(z, p);
    }
  }

  lemma LeaveListed(s: System, p: Pid, x: Pid)
    requires s.k.current in s.k.procs && s.k.current in s.parent && s.k.current != s.root
    requires p != s.k.current && Listed(s, p, x) && Listed(s, s.k.current, x)
    ensures Listed(DoLeave(s), p, x)
  {
    hide Exit;
  }

  lemma LeaveTree(s: System)
    requires TreeOk(s) && s.k.current in s.k.procs && s.k.current in s.parent && !IsFinished(s.k, s.k.current)
    requires var z := DoLeave(s);
             && z.k.procs.Keys == s.k.procs.Keys && z.k.idle == s.k.idle
             && IsFinished(z.k, s.k.current)
             && forall p: Pid :: p != s.k.current ==> IsFinished(z.k, p) == IsFinished(s.k, p)
    ensures TreeOk(DoLeave(s))
  {
    hide Exit, Listed;
    var z, c := DoLeave(s), s.k.current;
    forall p: Pid | p in z.parent ensures p in z.k.procs && ParentOk(z, p) {
      assert ParentOk(s, p);
    }
    forall p: Pid, x: Pid | p in z.k.procs && !IsFinished(z.k, p) ensures Listed(z, p, x) {
      LeaveListed(s, p, x);
    }
  }

  /** Only the parent of the leaver gains a finished child, and it has just been woken; only the root
      gains children. */
  lemma LeaveExit(s: System, z: System, c: Pid)
    requires NoLostExit(s) && c in s.parent && DriftExcept(s.k, z.k, c) && z.k.procs.Keys == s.k.procs.Keys
    requires IsFinished(z.k, c) && IsRunnable(z.k, s.parent[c])
    requires z.root == s.root && z.place == s.place && z.group == s.group
    requires z.parent == map x | x in s.parent :: if s.parent[x] == c then s.root else s.parent[x]
    ensures NoLostExit(z)
  {
    forall p: Pid, x: Pid | p != z.root ensures NotMissed(z, p, x) {
      assert NotMissed(s, p, x);
      if p != c { assert Drift(s.k, z.k, p); }
      if x != c { assert Drift(s.k, z.k, x); }
    }
  }

  /** The mutex part of a step in which `x`, not inside mutex_lock, stops waiting anywhere. */
  lemma MutexUntouched(s: System, z: System, x: Pid)
    requires Inv(s.k) && Inv(z.k) && DriftExcept(s.k, z.k, x) && z.k.procs.Keys == s.k.procs.Keys
    requires WaitersAreLocking(s) && NoLostWakeup(s) && z.place == s.place && z.locked == s.locked
    requires !PlaceOf(s, x).InLock? && !IsSleeping(z.k, x)
    ensures WaitersAreLocking(z) && NoLostWakeup(z)
  {
    hide Inv, Waiters;
    NoLocks(z.k, x, MUTEX_QUEUE);
    MutexQueueDrift(s, z, x);
    if Waiters(z.k, MUTEX_QUEUE) != [] && !s.locked {
      assert LastWaiter(z.k, MUTEX_QUEUE) in Waiters(s.k, MUTEX_QUEUE);
      var p: Pid :| OnItsWay(s, p);
      assert Drift(s.k, z.k, p);
      assert OnItsWay(z, p);
    }
  }

  lemma LeaveParent(s: System)
    requires Good(s) && Enabled(s, Leave)
    ensures s.k.current != s.k.idle && s.k.current in s.parent
    ensures var p := s.parent[s.k.current]; p in s.k.procs && p != s.k.current && !IsFinished(s.k, p)
  {
    hide Inv;
    InvParts(s.k);
    assert ParentOk(s, s.k.current);
  }

  lemma LeaveGood(s: System)
    requires Good(s) && Enabled(s, Leave)
    ensures s.k.current in s.parent && Good(DoLeave(s))
  {
    hide Inv, Waiters, Exit, TreeOk, NoLostExit, WaitersAreLocking, NoLostWakeup, OwnWaits;
    InvParts(s.k);
    var c := s.k.current;
    LeaveParent(s);
    ExitDrift(s.k, s.parent[c]);
    var z := DoLeave(s);
    forall p: Pid | p != c ensures IsFinished(z.k, p) == IsFinished(s.k, p) {
      assert Drift(s.k, z.k, p);
    }
    LeaveTree(s);
    LeaveExit(s, z, c);
    MutexUntouched(s, z, c);
    OwnWaitsAwake(s.k, z.k, c);
  }

  /** The current process moves to `at` without sleeping. */
  lemma PlaceGood(s: System)
    requires Good(s) && (PlaceOf(s, s.k.current).InLock? ==> s.locked)
    ensures Good(WithPlace(s, s.k, Elsewhere))
  {
    hide Inv, TreeOk, Waiters;
    InvParts(s.k);
    var z, c := WithPlace(s, s.k, Elsewhere), s.k.current;
    SameTreeOk(s, z);
    forall p: Pid, x: Pid | p != z.root ensures NotMissed(z, p, x) {
      assert NotMissed(s, p, x);
    }
    NotWaiting(s.k, MUTEX_QUEUE, c);
    if Waiters(s.k, MUTEX_QUEUE) != [] && !s.locked {
      var p: Pid :| OnItsWay(s, p);
      assert OnItsWay(z, p);
    }
  }

  lemma ListedMember(s: System, p: Pid, c: Pid)
    requires Listed(s, p, c)
    ensures c in ChildrenOf(s, p) <==> c in s.parent && s.parent[c] == p
  {
  }

  lemma ReapListed(s: System, z: System, c: Pid, child: Pid, p: Pid, x: Pid)
    requires z.parent == s.parent - {child} && z.children == s.children[c := Delete(ChildrenOf(s, c), child)]
    requires child in s.parent && s.parent[child] == c && Listed(s, p, x)
    ensures Listed(z, p, x)
  {
    hide Delete;
  }

  /** Reaping a finished child. */
  lemma ReapTree(s: System, z: System, c: Pid, child: Pid)
    requires TreeOk(s) && child in s.parent && s.parent[child] == c && IsFinished(s.k, child) && child != s.k.idle
    requires z.parent == s.parent - {child} && z.children == s.children[c := Delete(ChildrenOf(s, c), child)]
    requires z.root == s.root && z.k == Destroy(s.k, child)
    ensures TreeOk(z)
  {
    hide Listed, Delete;
    forall p: Pid | p in z.parent ensures p in z.k.procs && ParentOk(z, p) {
      assert ParentOk(s, p);
    }
    forall p: Pid, x: Pid | p in z.k.procs && !IsFinished(z.k, p) ensures Listed(z, p, x) {
      ReapListed(s, z, c, child, p, x);
    }
  }

  lemma ReapGood(s: System, z: System, child: Pid)
    requires Good(s) && child in s.parent && s.parent[child] == s.k.current && IsFinished(s.k, child)
    requires !PlaceOf(s, s.k.current).InLock?
    requires z == System(Destroy(s.k, child), s.place[s.k.current := Elsewhere], s.parent - {child},
                         s.children[s.k.current := Delete(ChildrenOf(s, s.k.current), child)],
                         s.group, s.root, s.locked, s.holder, s.critical)
    ensures Good(z)
  {
    hide Inv, TreeOk, Waiters, Delete, OwnWaits, NoLostExit, NoLostWakeup, WaitersAreLocking;
    InvParts(s.k);
    DestroySpec(s.k, child);
    ReapTree(s, z, s.k.current, child);
    OwnWaitsFewer(s.k, z.k);
    ReapSeen(s, z, child);
    ReapMutex(s, z, child);
  }

  lemma ReapSeen(s: System, z: System, child: Pid)
    requires NoLostExit(s) && z.k == Destroy(s.k, child) && z.parent == s.parent - {child}
    requires z.root == s.root && z.group == s.group && z.place == s.place[s.k.current := Elsewhere]
    ensures NoLostExit(z)
  {
    forall p: Pid, x: Pid | p != z.root ensures NotMissed(z, p, x) {
      assert NotMissed(s, p, x);
    }
  }

  lemma ReapMutex(s: System, z: System, child: Pid)
    requires Inv(s.k) && WaitersAreLocking(s) && NoLostWakeup(s) && IsFinished(s.k, child)
    requires z.k == Destroy(s.k, child) && z.locked == s.locked && z.place == s.place[s.k.current := Elsewhere]
    requires !PlaceOf(s, s.k.current).InLock?
    ensures WaitersAreLocking(z) && NoLostWakeup(z)
  {
    hide Inv, Waiters;
    InvParts(s.k);
    SameWaiters(s.k, z.k, MUTEX_QUEUE);
    NotWaiting(s.k, MUTEX_QUEUE, s.k.current);
    if Waiters(s.k, MUTEX_QUEUE) != [] && !s.locked {
      var p: Pid :| OnItsWay(s, p);
      assert OnItsWay(z, p);
    }
  }

  /** A process that goes to sleep in waitpid has just seen that no matching child has finished. */
  lemma WaitSleepSeen(s: System, arg: int)
    requires Good(s) && s.k.current != s.k.idle
    requires forall c :: c in ChildrenOf(s, s.k.current) && CanPick(s, c, s.k.current, arg) ==> !IsFinished(s.k, c)
    ensures s.k.current in s.k.procs && s.k.idle in s.k.procs
    ensures Slept(s.k, Sleep(s.k, WaitOf(s.k.current)), [WaitOf(s.k.current)])
    ensures forall c: Pid :: NotMissed(WithPlace(s, Sleep(s.k, WaitOf(s.k.current)), InWaitpid(arg)), s.k.current, c)
  {
    hide Inv, Sleep, Waiters, NoLostExit, WaitersAreLocking, NoLostWakeup, OwnWaits;
    InvParts(s.k);
    var x := s.k.current;
    SleepSlept(s.k, WaitOf(x));
    var r := Sleep(s.k, WaitOf(x));
    var z := WithPlace(s, r, InWaitpid(arg));
    forall c: Pid ensures NotMissed(z, x, c) {
      ListedMember(s, x, c);
      if c != x { assert Drift(s.k, r, c); }
    }
  }

  lemma WaitSleepGood(s: System, arg: int)
    requires Good(s) && s.k.current != s.k.idle && !PlaceOf(s, s.k.current).InLock?
    requires forall c :: c in ChildrenOf(s, s.k.current) && CanPick(s, c, s.k.current, arg) ==> !IsFinished(s.k, c)
    ensures s.k.current in s.k.procs && s.k.idle in s.k.procs
    ensures Good(WithPlace(s, Sleep(s.k, WaitOf(s.k.current)), InWaitpid(arg)))
  {
    hide Good, Sleep, NotMissed, Slept;
    WaitSleepSeen(s, arg);
    SleptGood(s, Sleep(s.k, WaitOf(s.k.current)), [WaitOf(s.k.current)], InWaitpid(arg));
  }

  lemma WaitGood(s: System, arg: int, nohang: bool)
    requires Good(s) && Enabled(s, WaitTurn(arg, nohang)) && s.k.current in s.k.procs && s.k.idle in s.k.procs
    ensures Good(DoWait(s, arg, nohang))
  {
    hide Good, Sleep, Delete, ScanChildren;
    GoodParts(s);
    var c := s.k.current;
    var pick := ScanChildren(s, ChildrenOf(s, c), c, arg);
    match pick
    case NoChild => PlaceGood(s);
    case Picked(child) =>
      ListedMember(s, c, child);
      ReapGood(s, DoWait(s, arg, nohang), child);
    case NoneFinished =>
      if nohang { PlaceGood(s); } else { WaitSleepGood(s, arg); }
  }

  lemma GoodParts(s: System)
    requires Good(s)
    ensures Inv(s.k) && s.k.current in s.k.procs && IsRunnable(s.k, s.k.current) && s.k.idle in s.k.procs
    ensures forall c: Pid :: Listed(s, s.k.current, c)
    ensures s.critical == if s.locked then {s.holder} else {}
  {
    InvParts(s.k);
  }

  lemma LockGood(s: System)
    requires Good(s) && Enabled(s, LockTurn) && s.k.current in s.k.procs && s.k.idle in s.k.procs
    ensures Good(DoLock(s))
  {
    hide Inv, Sleep, Waiters, TreeOk;
    InvParts(s.k);
    var c := s.k.current;
    if s.locked {
      SleepSlept(s.k, MUTEX_QUEUE);
      SleptGood(s, Sleep(s.k, MUTEX_QUEUE), [MUTEX_QUEUE], InLock);
    } else {
      var z := DoLock(s);
      SameTreeOk(s, z);
      forall p: Pid, x: Pid | p != z.root ensures NotMissed(z, p, x) {
        assert NotMissed(s, p, x);
      }
      NotWaiting(s.k, MUTEX_QUEUE, c);
    }
  }

  lemma UnlockGood(s: System)
    requires Good(s) && Enabled(s, Unlock)
    ensures Good(DoUnlock(s))
  {
    hide Inv, Waiters, TreeOk, WakeSingle, Woken;
    InvParts(s.k);
    WakeSingleCalm(s.k, MUTEX_QUEUE, false);
    var r := WakeSingle(s.k, MUTEX_QUEUE);
    var w := WithKernel(s, r);
    CalmGood(s, r);
    var z := DoUnlock(s);
    SameTreeOk(w, z);
    forall p: Pid, x: Pid | p != z.root ensures NotMissed(z, p, x) {
      assert NotMissed(w, p, x);
    }
    if Waiters(s.k, MUTEX_QUEUE) != [] {
      WakeSingleSpec(s.k, MUTEX_QUEUE);
      var p := LastWaiter(s.k, MUTEX_QUEUE);
      WokenFacts(s.k, r, p);
      assert p in Waiters(s.k, MUTEX_QUEUE);
      assert OnItsWay(z, p);
    } else {
      EmptySingle(s.k, MUTEX_QUEUE);
    }
  }

  lemma EmptySingle(k: Kernel, q: Queue)
    requires Waiters(k, q) == []
    ensures WakeSingle(k, q) == k
  {
  }

  /** Every step of the machine keeps all of it. */
  lemma StepGood(s: System, e: Event)
    requires Good(s) && Enabled(s, e)
    ensures e.Leave? ==> s.k.current in s.parent
    ensures Good(Next(s, e))
  {
    hide Good, Inv, Sleep, Select, Yield, WakeAll, WakeSingle, WakeSingleSelect, Kill, DoSpawn, DoLeave, DoWait,
        DoLock, DoUnlock;
    GoodParts(s);
    match e
    case Preempt =>
      YieldCalm(s.k);
      CalmGood(s, Yield(s.k));
    case Block(q) =>
      SleepSlept(s.k, q);
      SleptGood(s, Sleep(s.k, q), [q], Elsewhere);
    case BlockSelect(qs) =>
      SelectSlept(s.k, qs);
      SleptGood(s, Select(s.k, qs), qs, Elsewhere);
    case WakeUp(q, all, select) =>
      if all {
        WakeAllCalm(s.k, q, select);
        CalmGood(s, WakeAll(s.k, q, select));
      } else {
        WakeSingleCalm(s.k, q, select);
        CalmGood(s, if select then WakeSingleSelect(s.k, q) else WakeSingle(s.k, q));
      }
    case Spawn(child) => SpawnGood(s, child);
    case SendKill(p) =>
      KillCalm(s.k, p);
      CalmGood(s, Kill(s.k, p));
    case Leave => LeaveGood(s);
    case WaitTurn(arg, nohang) => WaitGood(s, arg, nohang);
    case LockTurn => LockGood(s);
    case Unlock => UnlockGood(s);
  }

  // ---------------------------------------------------------------- runs

  ghost predicate Legal(s: System, es: seq<Event>)
    requires Good(s)
    decreases |es|
  {
    es == [] || (Enabled(s, es[0]) && (StepGood(s, es[0]); Legal(Next(s, es[0]), es[1..])))
  }

  ghost function Run(s: System, es: seq<Event>): System
    requires Good(s) && Legal(s, es)
    decreases |es|
  {
    if es == [] then s else (StepGood(s, es[0]); Run(Next(s, es[0]), es[1..]))
  }

  lemma {:induction false} RunGood(s: System, es: seq<Event>)
    requires Good(s) && Legal(s, es)
    ensures Good(Run(s, es))
    decreases |es|
  {
    if es != [] {
      StepGood(s, es[0]);
      RunGood(Next(s, es[0]), es[1..]);
    }
  }

  // ---------------------------------------------------------------- following a run

  const FRESH: Proc := Proc(Starting, [], false)
  const GOING: Proc := Proc(Running, [], false)

  ghost predicate StepsTo(s: System, e: Event, z: System) {
    && Inv(s.k) && Enabled(s, e) && (e.Leave? ==> s.k.current in s.parent)
    && Next(s, e) == z
  }

  /** One step of a run. */
  lemma Advances(s: System, e: Event, z: System, es: seq<Event>)
    requires Good(s) && StepsTo(s, e, z) && es != [] && es[0] == e
    ensures Good(z) && Inv(z.k)
    ensures Legal(z, es[1..]) ==> Legal(s, es) && Run(s, es) == Run(z, es[1..])
  {
    hide Good, Inv, Next, Enabled;
    StepGood(s, e);
    GoodParts(z);
  }

  // ---------------------------------------------------------------- what runs guarantee

  /** The system after boot: only the root process and idle, nothing locked. */
  function Boot(root: Pid, idle: Pid): System {
    System(Kernel(map[root := Proc(Starting, [], false), idle := Proc(Starting, [], false)], map[], [], root, idle),
           map[], map[], map[], map[], root, false, root, {})
  }

  lemma BootGood(root: Pid, idle: Pid)
    requires root != idle
    ensures Good(Boot(root, idle))
  {
    var s := Boot(root, idle);
    forall p: Pid, q: Queue ensures Matched(s.k, p, q) { }
    forall p: Pid ensures ReadyCount(s.k, {s.k.current, s.k.idle}, p) { }
    forall p: Pid, c: Pid ensures Listed(s, p, c) { }
  }

  /** At any scheduling point of any run, at most one process is between mutex_lock and mutex_unlock. */
  lemma MutualExclusion(s: System, es: seq<Event>, p: Pid, q: Pid)
    requires Good(s) && Legal(s, es) && p in Run(s, es).critical && q in Run(s, es).critical
    ensures p == q && Run(s, es).locked && Run(s, es).holder == p
  {
    hide Run, Legal;
    RunGood(s, es);
  }

  /** A waiter for the mutex is never stranded. */
  lemma WakeupNotLost(s: System, es: seq<Event>)
    requires Good(s) && Legal(s, es) && Waiters(Run(s, es).k, MUTEX_QUEUE) != []
    ensures Run(s, es).locked || exists p: Pid :: OnItsWay(Run(s, es), p)
  {
    hide Run, Legal;
    RunGood(s, es);
  }

  /** waitpid loses no exit, in any run, for any process but the root. */
  lemma ExitNotLost(s: System, es: seq<Event>, p: Pid, c: Pid, arg: int)
    requires Good(s) && Legal(s, es)
    requires var r := Run(s, es);
             && p != r.root && IsSleeping(r.k, p) && PlaceOf(r, p) == InWaitpid(arg)
             && c in r.parent && r.parent[c] == p && CanPick(r, c, p, arg)
    ensures !IsFinished(Run(s, es).k, c)
  {
    hide Run, Legal;
    RunGood(s, es);
    assert NotMissed(Run(s, es), p, c);
  }
}
