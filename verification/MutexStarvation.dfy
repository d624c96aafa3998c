/** Nobody is lost on the mutex, but somebody may wait for ever: a process that unlocks and locks again
    before the one it woke gets to run keeps the mutex as often as it likes. */
module MutexStarvation {

  import opened Basics
  import opened Scheduler
  import opened ProcessRuns

  const WAITS: Proc := Proc(Sleeping, [MUTEX_QUEUE], false)

  // Process 1 holds the mutex and 2 waits for it.
  const K1: Kernel := Kernel(map[0 := FRESH, 1 := FRESH, 2 := GOING], map[], [2], 1, 0)
  const K3: Kernel := Kernel(map[0 := FRESH, 1 := GOING, 2 := GOING], map[], [1], 2, 0)
  const BLOCKED: Kernel := Kernel(map[0 := FRESH, 1 := GOING, 2 := WAITS], map[MUTEX_QUEUE := [2]], [], 1, 0)
  const WOKE: Kernel := Kernel(map[0 := FRESH, 1 := GOING, 2 := GOING], map[MUTEX_QUEUE := []], [2], 1, 0)
  const TURNED: Kernel := Kernel(map[0 := FRESH, 1 := GOING, 2 := GOING], map[MUTEX_QUEUE := []], [1], 2, 0)

  function Held(k: Kernel, place: map<Pid, Place>): System {
    System(k, place, map[2 := 1], map[1 := [2], 2 := []], map[2 := 1], 1, true, 1, {1})
  }

  function Open(k: Kernel, place: map<Pid, Place>): System {
    System(k, place, map[2 := 1], map[1 := [2], 2 := []], map[2 := 1], 1, false, 1, {})
  }

  const IDLE: map<Pid, Place> := map[1 := Elsewhere, 2 := Elsewhere]
  const WANTS: map<Pid, Place> := map[1 := Elsewhere, 2 := InLock]

  const STARVED: System := Held(BLOCKED, WANTS)

  const OPENING: seq<Event> := [Spawn(2), LockTurn, Preempt, LockTurn]
  const CYCLE: seq<Event> := [Unlock, LockTurn, Preempt, LockTurn]

  // ---------------------------------------------------------------- kernel steps

  lemma SpawnStep()
    ensures Fork(Boot(1, 0).k, 2) == K1
  {
    hide Fork;
    ForkQueues(Boot(1, 0).k, 2);
    assert Boot(1, 0).k.procs[2 := GOING] == K1.procs && [] + [2] == [2];
  }

  lemma TurnStep(k: Kernel, r: Kernel)
    requires (k == K1 && r == K3) || (k == WOKE && r == TURNED)
    ensures Yield(k) == r
  {
    hide Yield, MarkReady;
    assert [2] == [2] + [] && [] + [1] == [1];
    YieldFront(k, 2, []);
    MarkReadyUnlocked(k, 1);
    assert k.procs[1 := GOING][2 := GOING] == r.procs;
  }

  lemma SleepStep(k: Kernel)
    requires k == K3 || k == TURNED
    ensures Sleep(k, MUTEX_QUEUE) == BLOCKED
  {
    hide Sleep;
    assert [1] == [1] + [] && [] + [2] == [2] && [] + [MUTEX_QUEUE] == [MUTEX_QUEUE];
    SleepFront(k, MUTEX_QUEUE, 1, []);
    assert k.procs[2 := WAITS][1 := GOING] == BLOCKED.procs;
    assert k.queues[MUTEX_QUEUE := [2]] == BLOCKED.queues;
  }

  lemma WakeStep()
    ensures WakeSingle(BLOCKED, MUTEX_QUEUE) == WOKE
  {
    hide WakeSingle;
    WakeOnly(BLOCKED, MUTEX_QUEUE, 2);
    assert BLOCKED.procs[2 := GOING] == WOKE.procs && [] + [2] == [2];
    assert BLOCKED.queues[MUTEX_QUEUE := []] == WOKE.queues;
  }

  // ---------------------------------------------------------------- system steps

  lemma Opened()
    requires Inv(Boot(1, 0).k)
    ensures StepsTo(Boot(1, 0), Spawn(2), Open(K1, map[2 := Elsewhere]))
  {
    hide Inv, Fork;
    SpawnStep();
    assert ChildrenOf(Boot(1, 0), 1) + [2] == [2];
  }

  lemma Takes(k: Kernel, place: map<Pid, Place>)
    requires Inv(k) && k.current == 1 && k.idle == 0 && (1 in place ==> !place[1].InWaitpid?)
    ensures StepsTo(Open(k, place), LockTurn, Held(k, place[1 := Elsewhere]))
  {
    hide Inv;
  }

  lemma GivesWay(k: Kernel, r: Kernel, place: map<Pid, Place>)
    requires Inv(k) && k.current == 1 && (1 in place ==> place[1].Elsewhere?) && Yield(k) == r
    ensures StepsTo(Held(k, place), Preempt, Held(r, place))
  {
    hide Inv, Yield;
  }

  lemma Queues(k: Kernel, place: map<Pid, Place>)
    requires Inv(k) && (k == K3 || k == TURNED) && (place == IDLE || place == WANTS)
    ensures StepsTo(Held(k, place), LockTurn, STARVED)
  {
    hide Inv, Sleep;
    SleepStep(k);
    assert place[2 := InLock] == WANTS;
  }

  lemma Releases()
    requires Inv(BLOCKED)
    ensures StepsTo(STARVED, Unlock, Open(WOKE, WANTS))
  {
    hide Inv, WakeSingle;
    WakeStep();
  }

  // ---------------------------------------------------------------- rounds

  /** Process 2 does not hold the mutex at any point of the run. */
  ghost predicate Excluded(s: System, es: seq<Event>)
    requires Good(s) && Legal(s, es)
    decreases |es|
  {
    2 !in s.critical && (es == [] || (StepGood(s, es[0]); Excluded(Next(s, es[0]), es[1..])))
  }

  /** One step of a run that keeps process 2 out. */
  lemma Passes(s: System, e: Event, z: System, es: seq<Event>)
    requires Good(s) && StepsTo(s, e, z) && es != [] && es[0] == e && 2 !in s.critical
    ensures Good(z) && Inv(z.k)
    ensures Legal(z, es[1..]) ==> Legal(s, es) && Run(s, es) == Run(z, es[1..])
    ensures Legal(z, es[1..]) && Excluded(z, es[1..]) ==> Legal(s, es) && Excluded(s, es)
  {
    hide Good, Inv, Next, Enabled;
    StepGood(s, e);
    GoodParts(z);
  }

  lemma {:induction false} ExcludedPrefix(s: System, es: seq<Event>, m: nat)
    requires Good(s) && Legal(s, es) && Excluded(s, es) && m <= |es|
    ensures Legal(s, es[..m]) && 2 !in Run(s, es[..m]).critical
    decreases |es|
  {
    hide Good, Inv, Next, Enabled;
    if m > 0 {
      GoodParts(s);
      StepGood(s, es[0]);
      assert es[..m][1..] == es[1..][..m - 1];
      ExcludedPrefix(Next(s, es[0]), es[1..], m - 1);
    }
  }

  /** One round: the mutex is unlocked and locked again, and everything is as it was. */
  lemma Round(more: seq<Event>)
    requires Good(STARVED)
    ensures Legal(STARVED, more) ==> Legal(STARVED, CYCLE + more) && Run(STARVED, CYCLE + more) == Run(STARVED, more)
    ensures Legal(STARVED, more) && Excluded(STARVED, more) ==> Excluded(STARVED, CYCLE + more)
  {
    hide Good, Inv, Legal, Run, Excluded, StepsTo, STARVED, BLOCKED, WOKE, TURNED, K1, K3;
    var h := CYCLE + more;
    var s1, s2, s3 := Open(WOKE, WANTS), Held(WOKE, WANTS), Held(TURNED, WANTS);
    RoundStates();
    Releases();
    Passes(STARVED, Unlock, s1, h);
    Takes(WOKE, WANTS);
    Passes(s1, LockTurn, s2, h[1..]);
    TurnStep(WOKE, TURNED);
    GivesWay(WOKE, TURNED, WANTS);
    Passes(s2, Preempt, s3, h[2..]);
    Queues(TURNED, WANTS);
    Passes(s3, LockTurn, STARVED, h[3..]);
    assert h[1..][1..] == h[2..] && h[2..][1..] == h[3..] && h[3..][1..] == more;
  }

  lemma RoundStates()
    requires Good(STARVED)
    ensures Inv(BLOCKED) && STARVED.k == BLOCKED && 2 !in STARVED.critical
    ensures WOKE.current == 1 && WOKE.idle == 0 && WANTS[1 := Elsewhere] == WANTS
  {
    hide Inv;
  }

  function Rounds(n: nat): seq<Event> {
    if n == 0 then [] else CYCLE + Rounds(n - 1)
  }

  lemma {:induction false} ManyRounds(n: nat, more: seq<Event>)
    requires Good(STARVED) && Legal(STARVED, more)
    ensures Legal(STARVED, Rounds(n) + more) && Run(STARVED, Rounds(n) + more) == Run(STARVED, more)
    ensures Excluded(STARVED, more) ==> Excluded(STARVED, Rounds(n) + more)
  {
    hide Good, Legal, Run, Excluded, STARVED;
    if n == 0 {
      assert [] + more == more;
    } else {
      ManyRounds(n - 1, more);
      Round(Rounds(n - 1) + more);
      Regroup(CYCLE, Rounds(n - 1), more);
    }
  }

  lemma NobodyYet()
    ensures Boot(1, 0).critical == {}
  {
  }

  lemma Begins(more: seq<Event>)
    ensures Good(Boot(1, 0)) && Good(STARVED)
    ensures Legal(STARVED, more) ==>
              Legal(Boot(1, 0), OPENING + more) && Run(Boot(1, 0), OPENING + more) == Run(STARVED, more)
    ensures Legal(STARVED, more) && Excluded(STARVED, more) ==> Excluded(Boot(1, 0), OPENING + more)
  {
    hide Good, Inv, Legal, Run, Excluded, StepsTo, STARVED, BLOCKED, Boot;
    BootGood(1, 0);
    GoodParts(Boot(1, 0));
    assert 2 !in Boot(1, 0).critical by { NobodyYet(); }
    var h := OPENING + more;
    var s1, s2, s3 := Open(K1, map[2 := Elsewhere]), Held(K1, IDLE), Held(K3, IDLE);
    assert map[2 := Elsewhere][1 := Elsewhere] == IDLE;
    Opened();
    Passes(Boot(1, 0), Spawn(2), s1, h);
    Takes(K1, map[2 := Elsewhere]);
    Passes(s1, LockTurn, s2, h[1..]);
    TurnStep(K1, K3);
    GivesWay(K1, K3, IDLE);
    Passes(s2, Preempt, s3, h[2..]);
    Queues(K3, IDLE);
    Passes(s3, LockTurn, STARVED, h[3..]);
    assert h[1..][1..] == h[2..] && h[2..][1..] == h[3..] && h[3..][1..] == more;
  }

  lemma NoMore()
    requires Good(STARVED)
    ensures Legal(STARVED, []) && Run(STARVED, []) == STARVED && Excluded(STARVED, [])
  {
  }

  lemma OneUnlock()
    requires Good(STARVED)
    ensures Legal(STARVED, [Unlock]) && OnItsWay(Run(STARVED, [Unlock]), 2)
  {
    hide Good, Inv, Legal, Run, Excluded, StepsTo, STARVED;
    RoundStates();
    Releases();
    Passes(STARVED, Unlock, Open(WOKE, WANTS), [Unlock]);
    assert [Unlock][1..] == [];
    StaysOpen();
  }

  lemma StaysOpen()
    requires Good(Open(WOKE, WANTS))
    ensures Legal(Open(WOKE, WANTS), []) && Run(Open(WOKE, WANTS), []) == Open(WOKE, WANTS)
    ensures OnItsWay(Open(WOKE, WANTS), 2)
  {
    hide Good;
  }

  /** For every n there is a run from boot in which the mutex is unlocked n times while process 2 waits for
      it: each unlock wakes it, it is still waiting at the end, and at no point of the run does it hold
      the mutex. */
  lemma WaiterMayStarve(n: nat)
    ensures Good(Boot(1, 0)) && Legal(Boot(1, 0), OPENING + Rounds(n)) && Unlocks(OPENING + Rounds(n)) == n
    ensures var s := Run(Boot(1, 0), OPENING + Rounds(n));
            Waiters(s.k, MUTEX_QUEUE) == [2] && PlaceOf(s, 2).InLock?
    ensures forall m: nat :: m <= |OPENING + Rounds(n)| ==>
              && Legal(Boot(1, 0), (OPENING + Rounds(n))[..m])
              && 2 !in Run(Boot(1, 0), (OPENING + Rounds(n))[..m]).critical
    ensures forall i: nat :: i < n ==> WokenAfter(i)
  {
    hide Good, Legal, Run, Excluded, WokenAfter;
    Begins([]);
    NoMore();
    ManyRounds(n, []);
    assert Rounds(n) + [] == Rounds(n);
    Begins(Rounds(n));
    CountRounds(n);
    forall m: nat | m <= |OPENING + Rounds(n)|
      ensures Legal(Boot(1, 0), (OPENING + Rounds(n))[..m])
      ensures 2 !in Run(Boot(1, 0), (OPENING + Rounds(n))[..m]).critical
    {
      ExcludedPrefix(Boot(1, 0), OPENING + Rounds(n), m);
    }
    forall i: nat | i < n ensures WokenAfter(i) {
      WokenEachTime(i);
    }
  }

  /** The unlock that follows i rounds wakes process 2: it is ready to run inside mutex_lock. */
  ghost predicate WokenAfter(i: nat) {
    var es := OPENING + (Rounds(i) + [Unlock]);
    Good(Boot(1, 0)) && Legal(Boot(1, 0), es) && OnItsWay(Run(Boot(1, 0), es), 2)
  }

  lemma WokenEachTime(i: nat)
    ensures WokenAfter(i)
  {
    hide Good, Legal, Run, Excluded;
    Begins(Rounds(i) + [Unlock]);
    OneUnlock();
    ManyRounds(i, [Unlock]);
  }

  function Unlocks(es: seq<Event>): nat {
    if es == [] then 0 else (if es[0].Unlock? then 1 else 0) + Unlocks(es[1..])
  }

  lemma {:induction false} UnlocksConcat(a: seq<Event>, b: seq<Event>)
    ensures Unlocks(a + b) == Unlocks(a) + Unlocks(b)
    decreases |a|
  {
    if a == [] {
      assert a + b == b;
    } else {
      assert (a + b)[1..] == a[1..] + b;
      UnlocksConcat(a[1..], b);
    }
  }

  lemma {:induction false} CountRounds(n: nat)
    ensures Unlocks(Rounds(n)) == n && Unlocks(OPENING + Rounds(n)) == n
  {
    UnlocksConcat(OPENING, Rounds(n));
    assert Unlocks(OPENING) == 0;
    if n > 0 {
      CountRounds(n - 1);
      UnlocksConcat(CYCLE, Rounds(n - 1));
      assert Unlocks(CYCLE) == 1;
    }
  }
}
