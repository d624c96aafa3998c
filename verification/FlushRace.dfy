/** A flush that sleeps half-way: while one writer waits for room in the ring, another may type into the line
    that is being delivered. Which bytes of the line arrive depends on when it does. */
module FlushRace {

  import opened Basics
  import opened LineDiscipline

  /** The writer in the flush has read `out`, whose last byte it waits to deliver; it stands at index `i`
      with `len` counted down so far. `stored` counts what others have typed meanwhile. */
  datatype Race = Race(buf: seq<Cell>, len: nat, i: nat, out: seq<Cell>, stored: nat, clock: nat)

  /** Another writer types an ordinary byte, or the flush gets its byte delivered and goes on. */
  datatype Event = Types(c: Byte) | Delivers

  function At(buf: seq<Cell>, i: nat): Cell {
    if i < |buf| then buf[i] else Cell(0, 0)
  }

  function Step(r: Race, e: Event): Race
    requires r.len > 0
  {
    match e
    case Types(c) =>
      if r.len < LIMIT && r.len < |r.buf| then
        Race(r.buf[r.len := Cell(c, r.clock)], r.len + 1, r.i, r.out, r.stored + 1, r.clock + 1)
      else Race(r.buf, r.len, r.i, r.out, r.stored, r.clock + 1)
    case Delivers =>
      Race(r.buf, r.len - 1, r.i + 1, if r.len > 1 then r.out + [At(r.buf, r.i + 1)] else r.out, r.stored, r.clock)
  }

  /** Events happen only until the flush is over. */
  predicate Legal(r: Race, es: seq<Event>)
    decreases |es|
  {
    es == [] || (r.len > 0 && Legal(Step(r, es[0]), es[1..]))
  }

  function Run(r: Race, es: seq<Event>): Race
    requires Legal(r, es)
    decreases |es|
  {
    if es == [] then r else Run(Step(r, es[0]), es[1..])
  }

  /** The flush begins: the first byte is read. */
  function Begin(buf: seq<Cell>, n: nat, clock: nat): Race
    requires 0 < n <= |buf|
  {
    Race(buf, n, 0, [buf[0]], 0, clock)
  }

  // ---------------------------------------------------------------- when a typed byte does harm

  /** The typed byte goes to a place of the line that has not been read yet. */
  predicate Hits(r: Race, e: Event, n: nat) {
    e.Types? && r.stored < r.i && 2 * r.i < n + r.stored
  }

  predicate NeverHits(r: Race, es: seq<Event>, n: nat)
    requires Legal(r, es)
    decreases |es|
  {
    es == [] || (!Hits(r, es[0], n) && NeverHits(Step(r, es[0]), es[1..], n))
  }

  /** Bookkeeping of a flush of `n` bytes that began at time `start`. */
  ghost predicate Counted(r: Race, n: nat, start: nat) {
    && 0 < n <= LIMIT <= |r.buf| && start <= r.clock
    && r.len + r.i == n + r.stored
    && |r.out| == if r.len > 0 then r.i + 1 else r.i
  }

  lemma StepCounted(r: Race, e: Event, n: nat, start: nat)
    requires Counted(r, n, start) && r.len > 0
    ensures Counted(Step(r, e), n, start)
  {
  }

  /** The guard, read as an index: between what has been read and the end of the line. */
  lemma HitsInside(r: Race, e: Event, n: nat, start: nat)
    requires Counted(r, n, start) && e.Types?
    ensures Hits(r, e, n) <==> r.i < r.len < n
  {
  }

  /** Everything read is as it was in the line, and so is what is still to be read. */
  ghost predicate Pristine(r: Race, line: seq<Cell>) {
    && (forall j :: 0 <= j < |line| && j < |r.out| ==> r.out[j] == line[j])
    && (forall j :: r.i < j < |line| && j < |r.buf| ==> r.buf[j] == line[j])
  }

  lemma StepPristine(r: Race, e: Event, line: seq<Cell>, start: nat)
    requires Counted(r, |line|, start) && r.len > 0 && Pristine(r, line) && !Hits(r, e, |line|)
    ensures Pristine(Step(r, e), line)
  {
    if e.Types? {
      HitsInside(r, e, |line|, start);
    }
  }

  /** Place `j` of the line holds, or has delivered, a byte typed since the flush began. */
  ghost predicate Spoiled(r: Race, j: nat, start: nat) {
    if j <= r.i then j < |r.out| && r.out[j].at >= start else j < |r.buf| && r.buf[j].at >= start
  }

  lemma StepSpoiled(r: Race, e: Event, n: nat, j: nat, start: nat)
    requires Counted(r, n, start) && r.len > 0 && j < n && Spoiled(r, j, start)
    ensures Spoiled(Step(r, e), j, start)
  {
  }

  lemma {:induction false} RunPristine(r: Race, es: seq<Event>, line: seq<Cell>, start: nat)
    requires Counted(r, |line|, start) && Legal(r, es) && Pristine(r, line) && NeverHits(r, es, |line|)
    ensures Counted(Run(r, es), |line|, start) && Pristine(Run(r, es), line)
    decreases |es|
  {
    hide Counted, Pristine, Hits, Step;
    if es != [] {
      StepCounted(r, es[0], |line|, start);
      StepPristine(r, es[0], line, start);
      RunPristine(Step(r, es[0]), es[1..], line, start);
    }
  }

  lemma {:induction false} RunSpoiled(r: Race, es: seq<Event>, n: nat, j: nat, start: nat)
    requires Counted(r, n, start) && Legal(r, es) && j < n && Spoiled(r, j, start)
    ensures Counted(Run(r, es), n, start) && Spoiled(Run(r, es), j, start)
    decreases |es|
  {
    hide Counted, Spoiled, Step;
    if es != [] {
      StepCounted(r, es[0], n, start);
      StepSpoiled(r, es[0], n, j, start);
      RunSpoiled(Step(r, es[0]), es[1..], n, j, start);
    }
  }

  /** One hit is enough to spoil a place for good. */
  lemma {:induction false} RunHit(r: Race, es: seq<Event>, n: nat, start: nat) returns (j: nat)
    requires Counted(r, n, start) && Legal(r, es) && !NeverHits(r, es, n)
    ensures j < n && Counted(Run(r, es), n, start) && Spoiled(Run(r, es), j, start)
    decreases |es|
  {
    var z := Step(r, es[0]);
    StepCounted(r, es[0], n, start);
    if Hits(r, es[0], n) {
      HitsInside(r, es[0], n, start);
      j := r.len;
      assert Spoiled(z, j, start);
      RunSpoiled(z, es[1..], n, j, start);
    } else {
      j := RunHit(z, es[1..], n, start);
    }
  }

  // ---------------------------------------------------------------- the line arrives intact

  /** A finished flush has delivered the whole line, byte for byte. */
  ghost predicate Intact(r: Race, line: seq<Cell>) {
    |r.out| >= |line| && r.out[..|line|] == line
  }

  /** However the two writers interleave, a finished flush has delivered its line intact if and only if no
      byte was typed while more bytes of the line had been read than typed before, but less than half of
      the line and of those typed bytes together. */
  lemma IntactExactly(buf: seq<Cell>, n: nat, clock: nat, es: seq<Event>)
    requires 0 < n <= LIMIT <= |buf| && Before(buf[..n], clock)
    requires Legal(Begin(buf, n, clock), es) && Run(Begin(buf, n, clock), es).len == 0
    ensures Intact(Run(Begin(buf, n, clock), es), buf[..n]) <==> NeverHits(Begin(buf, n, clock), es, n)
  {
    hide Run, Legal, NeverHits;
    var line, r := buf[..n], Begin(buf, n, clock);
    var z := Run(r, es);
    if NeverHits(r, es, n) {
      RunPristine(r, es, line, clock);
      assert z.out[..n] == line;
    } else {
      var j := RunHit(r, es, n, clock);
      assert z.out[j] != line[j];
      assert |z.out| >= n ==> z.out[..n][j] == z.out[j];
    }
  }

  lemma Onward(r: Race, e: Event, es: seq<Event>)
    requires r.len > 0 && Legal(Step(r, e), es)
    ensures Legal(r, [e] + es) && Run(r, [e] + es) == Run(Step(r, e), es)
  {
    assert ([e] + es)[1..] == es;
  }

  /** With a line of three bytes, one byte typed while the second is being delivered replaces the third. */
  lemma TypedIntoFlush(buf: seq<Cell>, clock: nat, c: Byte)
    requires |buf| == LIMIT + 2 && Before(buf[..3], clock)
    ensures var es := [Delivers, Types(c), Delivers, Delivers, Delivers];
            && Legal(Begin(buf, 3, clock), es) && Run(Begin(buf, 3, clock), es).len == 0
            && !Intact(Run(Begin(buf, 3, clock), es), buf[..3])
  {
    var r0 := Begin(buf, 3, clock);
    var r1 := Step(r0, Delivers);
    var r2 := Step(r1, Types(c));
    var r3 := Step(r2, Delivers);
    var r4 := Step(r3, Delivers);
    Onward(r4, Delivers, []);
    Onward(r3, Delivers, [Delivers] + []);
    Onward(r2, Delivers, [Delivers] + ([Delivers] + []));
    Onward(r1, Types(c), [Delivers] + ([Delivers] + ([Delivers] + [])));
    Onward(r0, Delivers, [Types(c)] + ([Delivers] + ([Delivers] + ([Delivers] + []))));
    assert [Delivers, Types(c), Delivers, Delivers, Delivers]
        == [Delivers] + ([Types(c)] + ([Delivers] + ([Delivers] + ([Delivers] + []))));
    var r5 := Step(r4, Delivers);
    assert r5.len == 0 && r5.out[2].at == clock;
    assert buf[..3][2].at < clock;
    assert r5.out[..3][2] == r5.out[2];
  }
}
