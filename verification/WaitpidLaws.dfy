/** What waitpid reaps, said from its arguments and the process tree alone. */
module WaitpidLaws {

  import opened Basics
  import opened Scheduler
  import opened ProcessRuns

  /** The pid argument asks for `x`: that pid, the pid of its absolute value, the caller's group, or anybody. */
  ghost predicate AskedFor(s: System, arg: int, x: Pid) {
    && (arg > 0 ==> x == arg)
    && (arg < -1 ==> x == -arg)
    && (arg == 0 ==> GroupOf(s, x) == GroupOf(s, s.k.current))
  }

  ghost predicate Reapable(s: System, arg: int, x: Pid) {
    AskedFor(s, arg, x) && x in s.k.procs && s.k.procs[x].state.Finished?
  }

  /** The first in the caller's list of children that is asked for and has finished. */
  ghost predicate FirstReapable(s: System, arg: int, x: Pid) {
    var cs := ChildrenOf(s, s.k.current);
    exists i :: 0 <= i < |cs| && cs[i] == x && Reapable(s, arg, x)
                && forall j :: 0 <= j < i ==> !Reapable(s, arg, cs[j])
  }

  lemma SameAsk(s: System, arg: int, x: Pid)
    ensures CanPick(s, x, s.k.current, arg) <==> AskedFor(s, arg, x)
    ensures Matches(s, x, s.k.current, arg) <==> Reapable(s, arg, x)
  {
  }

  lemma FirstIsOne(s: System, arg: int, x: Pid, y: Pid)
    requires FirstReapable(s, arg, x) && FirstReapable(s, arg, y)
    ensures x == y
  {
    var cs := ChildrenOf(s, s.k.current);
    var i :| 0 <= i < |cs| && cs[i] == x && forall k :: 0 <= k < i ==> !Reapable(s, arg, cs[k]);
    var j :| 0 <= j < |cs| && cs[j] == y && forall k :: 0 <= k < j ==> !Reapable(s, arg, cs[k]);
  }

  lemma {:induction false} SomeFirst(s: System, arg: int, i: nat)
    requires i < |ChildrenOf(s, s.k.current)| && Reapable(s, arg, ChildrenOf(s, s.k.current)[i])
    ensures exists x :: FirstReapable(s, arg, x)
  {
    var cs := ChildrenOf(s, s.k.current);
    if j :| 0 <= j < i && Reapable(s, arg, cs[j]) {
      SomeFirst(s, arg, j);
    } else {
      assert FirstReapable(s, arg, cs[i]);
    }
  }

  lemma PickedIsFirst(s: System, arg: int, x: Pid)
    requires ScanChildren(s, ChildrenOf(s, s.k.current), s.k.current, arg) == Picked(x)
    ensures FirstReapable(s, arg, x)
  {
    hide ScanChildren, CanPick;
    var cs := ChildrenOf(s, s.k.current);
    var i :| 0 <= i < |cs| && FirstMatch(s, cs, s.k.current, arg, i) && x == cs[i];
    SameAsk(s, arg, x);
    forall j | 0 <= j < i ensures !Reapable(s, arg, cs[j]) {
      SameAsk(s, arg, cs[j]);
    }
  }

  lemma NothingPicked(s: System, arg: int)
    requires !ScanChildren(s, ChildrenOf(s, s.k.current), s.k.current, arg).Picked?
    ensures forall x :: !FirstReapable(s, arg, x)
  {
    hide ScanChildren, CanPick;
    forall x ensures !FirstReapable(s, arg, x) {
      SameAsk(s, arg, x);
    }
  }

  /** One turn of waitpid takes out of the process table exactly the first finished child that is asked for,
      if there is one; out of the tree goes the same process and no other, and nobody else changes parent. */
  lemma ReapsExactly(s: System, arg: int, nohang: bool, x: Pid)
    requires Good(s) && Enabled(s, WaitTurn(arg, nohang))
    ensures Inv(s.k)
    ensures var z := Next(s, WaitTurn(arg, nohang));
            && (x in s.k.procs ==> (x !in z.k.procs <==> FirstReapable(s, arg, x)))
            && (x in s.parent ==> (x !in z.parent <==> FirstReapable(s, arg, x)))
            && (x in z.k.procs ==> x in s.k.procs)
            && (x in z.parent ==> x in s.parent && z.parent[x] == s.parent[x])
  {
    hide Good, Inv, Sleep, ScanChildren, Delete, FirstReapable, Slept;
    GoodParts(s);
    var c := s.k.current;
    match ScanChildren(s, ChildrenOf(s, c), c, arg)
    case NoChild => NothingPicked(s, arg);
    case NoneFinished =>
      NothingPicked(s, arg);
      SleepKeepsTable(s, arg);
    case Picked(child) =>
      PickedIsFirst(s, arg, child);
      if FirstReapable(s, arg, x) { FirstIsOne(s, arg, x, child); }
  }

  lemma SleepKeepsTable(s: System, arg: int)
    requires Good(s) && s.k.current != s.k.idle && s.k.current in s.k.procs && s.k.idle in s.k.procs
    ensures Sleep(s.k, WaitOf(s.k.current)).procs.Keys == s.k.procs.Keys
    ensures forall x :: x in Sleep(s.k, WaitOf(s.k.current)).procs <==> x in s.k.procs
  {
    hide Inv, Sleep, DriftExcept;
    SleepSlept(s.k, WaitOf(s.k.current));
    assert forall x :: x in Sleep(s.k, WaitOf(s.k.current)).procs.Keys <==> x in s.k.procs.Keys;
  }

  /** If some child asked for has finished, one is reaped; only a finished child of the caller ever is. */
  lemma ReapsSomebody(s: System, arg: int, nohang: bool)
    requires Good(s) && Enabled(s, WaitTurn(arg, nohang))
    ensures Inv(s.k)
    ensures (exists x: Pid :: x in s.parent && s.parent[x] == s.k.current && Reapable(s, arg, x))
            <==> (exists x :: x in s.k.procs && x !in Next(s, WaitTurn(arg, nohang)).k.procs)
    ensures forall x: Pid :: x in s.k.procs && x !in Next(s, WaitTurn(arg, nohang)).k.procs ==>
              x in s.parent && s.parent[x] == s.k.current && Reapable(s, arg, x)
  {
    hide Good, Inv, Next, Enabled, Reapable, CanPick, ScanChildren;
    GoodParts(s);
    var cs := ChildrenOf(s, s.k.current);
    forall x: Pid | x in s.k.procs && x !in Next(s, WaitTurn(arg, nohang)).k.procs
      ensures x in s.parent && s.parent[x] == s.k.current && Reapable(s, arg, x)
    {
      ReapsExactly(s, arg, nohang, x);
      ListedMember(s, s.k.current, x);
    }
    if x: Pid :| x in s.parent && s.parent[x] == s.k.current && Reapable(s, arg, x) {
      ListedMember(s, s.k.current, x);
      var i :| 0 <= i < |cs| && cs[i] == x;
      SomeFirst(s, arg, i);
      var y :| FirstReapable(s, arg, y);
      ReapsExactly(s, arg, nohang, y);
      ReapableThere(s, arg, y);
    }
  }

  lemma ReapableThere(s: System, arg: int, y: Pid)
    requires FirstReapable(s, arg, y)
    ensures y in s.k.procs
  {
  }

  /** With nothing to reap the caller goes to sleep in waitpid exactly if it has a child that is asked for
      and did not ask to return at once; otherwise it returns and the scheduler has not changed. */
  lemma SleepsExactly(s: System, arg: int, nohang: bool)
    requires Good(s) && Enabled(s, WaitTurn(arg, nohang)) && forall x :: !FirstReapable(s, arg, x)
    ensures Inv(s.k)
    ensures var z := Next(s, WaitTurn(arg, nohang));
            if !nohang && exists x: Pid :: x in s.parent && s.parent[x] == s.k.current && AskedFor(s, arg, x)
            then IsSleeping(z.k, s.k.current) && PlaceOf(z, s.k.current) == InWaitpid(arg)
            else z.k == s.k && PlaceOf(z, s.k.current).Elsewhere?
  {
    hide Good, Inv, Sleep, ScanChildren, Delete, FirstReapable, DriftExcept, CanPick;
    GoodParts(s);
    var c := s.k.current;
    var cs := ChildrenOf(s, c);
    forall x: Pid
      ensures (x in s.parent && s.parent[x] == c && AskedFor(s, arg, x)) <==> (x in cs && CanPick(s, x, c, arg))
    {
      ListedMember(s, c, x);
      SameAsk(s, arg, x);
    }
    match ScanChildren(s, cs, c, arg)
    case NoChild =>
    case Picked(child) => PickedIsFirst(s, arg, child);
    case NoneFinished => SleepSlept(s.k, WaitOf(c));
  }

  /** A new process hangs last below its creator, in the group named by the creator's pid. */
  lemma SpawnHangs(s: System, child: Pid)
    requires Good(s) && Enabled(s, Spawn(child))
    ensures Inv(s.k)
    ensures var z := Next(s, Spawn(child));
            && child in z.parent && z.parent[child] == s.k.current && GroupOf(z, child) == s.k.current
            && ChildrenOf(z, s.k.current) == ChildrenOf(s, s.k.current) + [child] && ChildrenOf(z, child) == []
            && (forall p: Pid :: p in s.parent && p != child ==> p in z.parent && z.parent[p] == s.parent[p])
            && (forall p: Pid :: p != child ==> GroupOf(z, p) == GroupOf(s, p))
  {
    hide Good, Inv, Fork;
    GoodParts(s);
  }

  /** exit() hands the children of the process over to the root, behind the root's own, and moves nobody
      else. */
  lemma LeaveHandsOver(s: System)
    requires Good(s) && Enabled(s, Leave)
    ensures Inv(s.k) && s.k.current in s.parent
    ensures var z := Next(s, Leave);
            && ChildrenOf(z, s.root) == ChildrenOf(s, s.root) + ChildrenOf(s, s.k.current)
            && forall p: Pid :: p in s.parent ==>
                 p in z.parent && z.parent[p] == if s.parent[p] == s.k.current then s.root else s.parent[p]
  {
    hide Good, Inv, Exit;
    GoodParts(s);
    LeaveParent(s);
  }
}
