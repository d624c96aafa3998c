/** Resizing a window: the compositor and the owner of the window are two processes that share a
    graphics context and talk over a socket. One resize is under way at a time; requests that arrive
    meanwhile are merged into one delayed size. */
module ResizeProtocol {

  datatype Size = Size(w: nat, h: nat)

  /** How far the owner is with the event it took: it stores the width, then the height, then confirms. */
  datatype Phase = Idle | Took(size: Size) | WroteWidth(size: Size) | WroteBoth(size: Size)

  /** `events` and `confirms` are what lies unread in the two directions of the socket; `requested`
      is the last size anybody asked for. A window may have no owner; its owner may not have
      opened the graphics context. */
  datatype State = State(sizes: Size, inResize: bool, hasDelayed: bool, delayed: Size, gc: Size,
                         owned: bool, mapped: bool, events: seq<Size>, phase: Phase, confirms: nat,
                         requested: Size)

  // ---------------------------------------------------------------- the compositor

  /** compose_sv_start_resize. */
  function Start(s: State, size: Size): State {
    if s.inResize then
      State(s.sizes, true, true, size, s.gc, s.owned, s.mapped, s.events, s.phase, s.confirms, s.requested)
    else if s.sizes == size then s
    else
      State(s.sizes, true, s.hasDelayed, s.delayed, s.gc, s.owned, s.mapped,
            if s.owned then s.events + [size] else s.events, s.phase, s.confirms, s.requested)
  }

  /** compose_sv_apply_size. */
  function Apply(s: State): State {
    if !s.inResize then s
    else
      var done := State(s.gc, false, false, s.delayed, s.gc, s.owned, s.mapped, s.events, s.phase, s.confirms,
          s.requested);
      if s.hasDelayed then Start(done, s.delayed) else done
  }

  // ---------------------------------------------------------------- steps of the two processes

  datatype Step = Request(size: Size) | Take | StoreWidth | StoreHeight | Confirm | HandleConfirm

  predicate Enabled(s: State, a: Step) {
    match a
    case Request(_) => true
    case Take => s.phase.Idle? && s.events != []
    case StoreWidth => s.phase.Took?
    case StoreHeight => s.phase.WroteWidth?
    case Confirm => s.phase.WroteBoth?
    case HandleConfirm => s.confirms > 0
  }

  function WithRequested(s: State, size: Size): State {
    State(s.sizes, s.inResize, s.hasDelayed, s.delayed, s.gc, s.owned, s.mapped, s.events, s.phase, s.confirms, size)
  }

  function WithOwner(s: State, gc: Size, events: seq<Size>, phase: Phase, confirms: nat): State {
    State(s.sizes, s.inResize, s.hasDelayed, s.delayed, gc, s.owned, s.mapped, events, phase, confirms, s.requested)
  }

  function Next(s: State, a: Step): State
    requires Enabled(s, a)
  {
    match a
    case Request(size) => Start(WithRequested(s, size), size)
    case Take => WithOwner(s, s.gc, s.events[1..], Took(s.events[0]), s.confirms)
    case StoreWidth =>
      WithOwner(s, if s.mapped then Size(s.phase.size.w, s.gc.h) else s.gc, s.events, WroteWidth(s.phase.size),
          s.confirms)
    case StoreHeight =>
      WithOwner(s, if s.mapped then Size(s.gc.w, s.phase.size.h) else s.gc, s.events, WroteBoth(s.phase.size),
          s.confirms)
    case Confirm => WithOwner(s, s.gc, s.events, Idle, s.confirms + 1)
    case HandleConfirm => Apply(WithOwner(s, s.gc, s.events, s.phase, s.confirms - 1))
  }

  predicate Allowed(s: State, steps: seq<Step>)
    decreases |steps|
  {
    steps == [] || (Enabled(s, steps[0]) && Allowed(Next(s, steps[0]), steps[1..]))
  }

  function Run(s: State, steps: seq<Step>): State
    requires Allowed(s, steps)
    decreases |steps|
  {
    if steps == [] then s else Run(Next(s, steps[0]), steps[1..])
  }

  // ---------------------------------------------------------------- what every run keeps

  function InFlight(s: State): nat {
    |s.events| + s.confirms + (if s.phase.Idle? then 0 else 1)
  }

  /** The size the one resize under way will end in. */
  ghost predicate Heading(s: State, target: Size) {
    && InFlight(s) == 1
    && (s.events != [] ==> s.events[0] == target)
    && (!s.phase.Idle? ==> s.phase.size == target)
    && (s.phase.WroteWidth? ==> s.gc.w == target.w)
    && (s.phase.WroteBoth? || s.confirms > 0 ==> s.gc == target)
    && (if s.hasDelayed then s.delayed == s.requested else target == s.requested)
  }

  ghost predicate Good(s: State) {
    && s.owned && s.mapped
    && if s.inResize then exists target :: Heading(s, target)
       else InFlight(s) == 0 && !s.hasDelayed && s.sizes == s.requested
  }

  lemma StepGood(s: State, a: Step)
    requires Good(s) && Enabled(s, a)
    ensures Good(Next(s, a))
  {
    var z := Next(s, a);
    if s.inResize {
      var target :| Heading(s, target);
      match a {
        case Request(_) => assert Heading(z, target);
        case HandleConfirm =>
          if s.hasDelayed && s.delayed != s.gc { assert Heading(z, s.delayed); }
        case _ => assert Heading(z, target);
      }
    } else if a.Request? && a.size != s.sizes {
      assert Heading(z, a.size);
    }
  }

  lemma {:induction false} RunGood(s: State, steps: seq<Step>)
    requires Good(s) && Allowed(s, steps)
    ensures Good(Run(s, steps))
    decreases |steps|
  {
    if steps != [] {
      StepGood(s, steps[0]);
      RunGood(Next(s, steps[0]), steps[1..]);
    }
  }

  /** Nothing under way means the window has the size last asked for. */
  predicate Honoured(s: State) {
    InFlight(s) <= 1 && (InFlight(s) == 0 ==> s.sizes == s.requested)
  }

  /** What a request sends: one event with the size asked for, unless a resize is under way, the window has
      that size already, or nobody owns it. */
  lemma RequestSends(s: State, size: Size)
    ensures var z := Next(s, Request(size));
            && z.requested == size && z.sizes == s.sizes && z.gc == s.gc
            && z.events == (if !s.inResize && s.sizes != size && s.owned then s.events + [size] else s.events)
            && (z.inResize <==> s.inResize || s.sizes != size)
  {
  }

  /** What a confirmation does: the window takes the size in the shared context, and at most one event follows,
      with the last size asked for meanwhile. */
  lemma ConfirmationSends(s: State)
    requires s.confirms > 0 && s.inResize
    ensures var z := Next(s, HandleConfirm); var again := s.hasDelayed && s.delayed != s.gc;
            && z.sizes == s.gc && !z.hasDelayed && (z.inResize <==> again)
            && z.events == (if again && s.owned then s.events + [s.delayed] else s.events)
  {
  }

  // ---------------------------------------------------------------- exactly which windows honour requests

  /** compose_sv_create_window: the creator's flag word is taken as it is. */
  function Created(size: Size, owned: bool, mapped: bool, inResize: bool, hasDelayed: bool): State {
    State(size, inResize, hasDelayed, Size(0, 0), size, owned, mapped, [], Idle, 0, size)
  }

  ghost predicate AlwaysHonours(s: State) {
    forall steps :: Allowed(s, steps) ==> Honoured(Run(s, steps))
  }

  function Other(a: Size): (b: Size)
    ensures b != a && b != Size(0, 0)
  {
    Size(a.w + 1, a.h)
  }

  lemma RunOne(s: State, a: Step)
    requires Enabled(s, a)
    ensures Allowed(s, [a]) && Run(s, [a]) == Next(s, a)
  {
    assert [a][1..] == [];
    assert Run(s, [a]) == Run(Next(s, a), []);
  }

  lemma {:induction false} RunConcat(s: State, a: seq<Step>, b: seq<Step>)
    requires Allowed(s, a) && Allowed(Run(s, a), b)
    ensures Allowed(s, a + b) && Run(s, a + b) == Run(Run(s, a), b)
    decreases |a|
  {
    if a == [] {
      assert a + b == b;
    } else {
      assert (a + b)[1..] == a[1..] + b;
      RunConcat(Next(s, a[0]), a[1..], b);
    }
  }

  const ANSWER: seq<Step> := [Take, StoreWidth, StoreHeight, Confirm, HandleConfirm]

  const OWNER_ANSWER: seq<Step> := [Take, StoreWidth, StoreHeight, Confirm]

  /** The owner's part of it, undisturbed. */
  lemma OwnerAnswerRuns(s: State)
    requires s.events != [] && s.phase.Idle?
    ensures Allowed(s, OWNER_ANSWER)
    ensures Run(s, OWNER_ANSWER) == WithOwner(s, if s.mapped then s.events[0] else s.gc, s.events[1..], Idle,
        s.confirms + 1)
  {
    var a := Next(s, Take);
    var b := Next(a, StoreWidth);
    var c := Next(b, StoreHeight);
    RunOne(c, Confirm);
    assert OWNER_ANSWER[1..][1..][1..] == [Confirm];
    assert Run(b, OWNER_ANSWER[1..][1..]) == Run(c, [Confirm]);
    assert Run(a, OWNER_ANSWER[1..]) == Run(b, OWNER_ANSWER[1..][1..]);
    assert Run(s, OWNER_ANSWER) == Run(a, OWNER_ANSWER[1..]);
  }

  /** One whole turn of the handshake. */
  lemma AnswerRuns(s: State)
    requires |s.events| == 1 && s.phase.Idle? && s.confirms == 0
    ensures Allowed(s, ANSWER)
    ensures Run(s, ANSWER) == Apply(WithOwner(s, if s.mapped then s.events[0] else s.gc, [], Idle, 0))
  {
    var a := Next(s, Take);
    var b := Next(a, StoreWidth);
    var c := Next(b, StoreHeight);
    var d := Next(c, Confirm);
    RunOne(d, HandleConfirm);
    assert ANSWER[1..][1..][1..][1..] == [HandleConfirm];
    assert [Confirm, HandleConfirm][1..] == [HandleConfirm];
    assert Run(c, [Confirm, HandleConfirm]) == Run(d, [HandleConfirm]);
    assert ANSWER[1..][1..][1..] == [Confirm, HandleConfirm];
    assert Run(b, ANSWER[1..][1..]) == Run(c, [Confirm, HandleConfirm]);
    assert Run(a, ANSWER[1..]) == Run(b, ANSWER[1..][1..]);
    assert Run(s, ANSWER) == Run(a, ANSWER[1..]);
    assert s.events[1..] == [];
  }

  /** A window honours every request in every run exactly when it has an owner that opened the
      graphics context and was created with neither of the two resize flags. */
  lemma HonoursExactly(size: Size, owned: bool, mapped: bool, inResize: bool, hasDelayed: bool)
    ensures AlwaysHonours(Created(size, owned, mapped, inResize, hasDelayed))
            <==> owned && mapped && !inResize && !hasDelayed
  {
    var s := Created(size, owned, mapped, inResize, hasDelayed);
    if owned && mapped && !inResize && !hasDelayed {
      forall steps | Allowed(s, steps) ensures Honoured(Run(s, steps)) {
        RunGood(s, steps);
      }
    } else {
      Dishonoured(s);
    }
  }

  lemma Dishonoured(s: State)
    requires s == Created(s.sizes, s.owned, s.mapped, s.inResize, s.hasDelayed)
    requires !s.owned || !s.mapped || s.inResize || s.hasDelayed
    ensures !AlwaysHonours(s)
  {
    var ask := Request(Other(s.sizes));
    var one := Next(s, ask);
    RunOne(s, ask);
    if s.inResize || !s.owned {
      assert !Honoured(Run(s, [ask]));
    } else {
      AnswerRuns(one);
      RunConcat(s, [ask], ANSWER);
      var two := Run(one, ANSWER);
      if !s.mapped {
        if s.hasDelayed {
          DelayedLost(s, two);
        } else {
          assert !Honoured(Run(s, [ask] + ANSWER));
        }
      } else {
        DelayedLost(s, two);
      }
    }
  }

  lemma Caught(s: State, steps: seq<Step>)
    requires Allowed(s, steps) && !Honoured(Run(s, steps))
    ensures !AlwaysHonours(s)
  {
  }

  /** An answer after which nothing is delayed. */
  lemma LastAnswer(s: State)
    requires s.inResize && !s.hasDelayed && |s.events| == 1 && s.phase.Idle? && s.confirms == 0
    ensures Allowed(s, ANSWER)
    ensures var z := Run(s, ANSWER);
            && InFlight(z) == 0 && z.requested == s.requested
            && z.sizes == if s.mapped then s.events[0] else s.gc
  {
    hide Run, Allowed, Next, ANSWER;
    AnswerRuns(s);
  }

  /** A stray delayed size of nothing is what the window ends up with, or stays at. */
  lemma DelayedLost(s: State, two: State)
    requires s == Created(s.sizes, true, s.mapped, false, true)
    requires Allowed(s, [Request(Other(s.sizes))] + ANSWER) && two == Run(s, [Request(Other(s.sizes))] + ANSWER)
    requires two == Start(State(if s.mapped then Other(s.sizes) else s.sizes, false, false, Size(0, 0),
                                if s.mapped then Other(s.sizes) else s.sizes, true, s.mapped, [], Idle, 0,
                                Other(s.sizes)), Size(0, 0))
    ensures !AlwaysHonours(s)
  {
    hide Run, Allowed, Next, ANSWER, Apply, AlwaysHonours;
    var first := [Request(Other(s.sizes))] + ANSWER;
    if two.events == [] {
      assert !Honoured(two);
      Caught(s, first);
    } else {
      LastAnswer(two);
      RunConcat(s, first, ANSWER);
      assert !Honoured(Run(s, first + ANSWER));
      Caught(s, first + ANSWER);
    }
  }

  // ---------------------------------------------------------------- it settles

  /** What the two processes do next if nobody asks for anything more. */
  function Settle(s: State, n: nat): State
    decreases n
  {
    if n == 0 then s
    else if s.confirms > 0 then Settle(Next(s, HandleConfirm), n - 1)
    else if s.phase.WroteBoth? then Settle(Next(s, Confirm), n - 1)
    else if s.phase.WroteWidth? then Settle(Next(s, StoreHeight), n - 1)
    else if s.phase.Took? then Settle(Next(s, StoreWidth), n - 1)
    else if s.events != [] then Settle(Next(s, Take), n - 1)
    else s
  }

  function StepsLeft(s: State): nat {
    (if s.confirms > 0 then 1 else if s.phase.WroteBoth? then 2 else if s.phase.WroteWidth? then 3
     else if s.phase.Took? then 4 else if s.events != [] then 5 else 0)
    + (if s.hasDelayed then 5 else 0)
  }

  /** However many requests came in, ten further steps of the two processes bring the window to the
      last size asked for. */
  lemma {:induction false} Settles(s: State, n: nat)
    requires Good(s) && StepsLeft(s) <= n
    ensures InFlight(Settle(s, n)) == 0 && Settle(s, n).sizes == s.requested
    decreases n
  {
    if n > 0 && InFlight(s) > 0 {
      var a := if s.confirms > 0 then HandleConfirm else if s.phase.WroteBoth? then Confirm
               else if s.phase.WroteWidth? then StoreHeight else if s.phase.Took? then StoreWidth else Take;
      StepGood(s, a);
      assert StepsLeft(Next(s, a)) < StepsLeft(s) && Next(s, a).requested == s.requested;
      Settles(Next(s, a), n - 1);
    }
  }

  lemma SettlesInTen(s: State)
    requires Good(s)
    ensures InFlight(Settle(s, 10)) == 0 && Settle(s, 10).sizes == s.requested
  {
    Settles(s, 10);
  }

  // ---------------------------------------------------------------- the window object

  /** A window as the compositor holds it, and the socket and shared memory around it. */
  class Window {
    var sizes: Size
    var inResize: bool
    var hasDelayed: bool
    var delayed: Size
    var gc: Size
    var owned: bool
    var mapped: bool
    var events: seq<Size>
    var phase: Phase
    var confirms: nat
    ghost var requested: Size

    ghost function Abs(): State
      reads this
    {
      State(sizes, inResize, hasDelayed, delayed, gc, owned, mapped, events, phase, confirms, requested)
    }

    constructor (size: Size, owned: bool, mapped: bool, inResize: bool, hasDelayed: bool)
      ensures Abs() == Created(size, owned, mapped, inResize, hasDelayed)
    {
      sizes, gc, requested, delayed := size, size, size, Size(0, 0);
      this.owned, this.mapped, this.inResize, this.hasDelayed := owned, mapped, inResize, hasDelayed;
      events, phase, confirms := [], Idle, 0;
    }

    method StartResize(size: Size)
      modifies this
      ensures Abs() == Start(old(Abs()), size)
    {
      if inResize {
        delayed := size;
        hasDelayed := true;
        return;
      }
      if sizes == size {
        return;
      }
      inResize := true;
      if owned {
        events := events + [size];
      }
    }

    method ApplySize()
      modifies this
      ensures Abs() == Apply(old(Abs()))
    {
      if !inResize {
        return;
      }
      sizes := gc;
      inResize := false;
      if hasDelayed {
        hasDelayed := false;
        StartResize(delayed);
      }
    }

    /** A resize request of the first stage. */
    method HandleRequest(size: Size)
      modifies this
      ensures Abs() == Next(old(Abs()), Request(size))
      ensures old(Good(Abs())) ==> Good(Abs())
    {
      StepHelper(Request(size));
      requested := size;
      StartResize(size);
    }

    /** The second stage: the owner's confirmation. */
    method HandleConfirmation()
      requires confirms > 0
      modifies this
      ensures Abs() == Next(old(Abs()), HandleConfirm)
      ensures old(Good(Abs())) ==> Good(Abs())
    {
      StepHelper(HandleConfirm);
      confirms := confirms - 1;
      ApplySize();
    }

    /** The owner's side: take the event, rewrite the shared context, confirm. */
    method AnswerEvent()
      requires phase.Idle? && events != []
      modifies this
      ensures Allowed(old(Abs()), OWNER_ANSWER) && Abs() == Run(old(Abs()), OWNER_ANSWER)
      ensures old(Good(Abs())) ==> Good(Abs())
    {
      OwnerAnswerRuns(Abs());
      if Good(Abs()) { RunGood(Abs(), OWNER_ANSWER); }
      var size := events[0];
      events := events[1..];
      if mapped {
        gc := Size(size.w, gc.h);
        gc := Size(gc.w, size.h);
      }
      confirms := confirms + 1;
    }

    lemma StepHelper(a: Step)
      requires Enabled(Abs(), a)
      ensures Good(Abs()) ==> Good(Next(Abs(), a))
    {
      if Good(Abs()) {
        StepGood(Abs(), a);
      }
    }
  }
}
