/** The line discipline in front of the ring it delivers into: the ring has one slot fewer than a full
    line has bytes, so a single commit can put the writer to sleep. */
module TtyInput {

  import opened Basics
  import opened LineDiscipline
  import RingBuffer

  /** ringbuffer_create(PTY_BUFFER_SIZE) keeps one slot free. */
  const CAPACITY: nat := LIMIT - 1

  // ---------------------------------------------------------------- one byte at a time

  ghost predicate FifoOk(f: RingBuffer.Fifo) {
    |f.contents| <= f.capacity
  }

  /** The bytes go in by one write each; no write finds the ring full. */
  ghost predicate NeverSleeps(f: RingBuffer.Fifo, p: nat, bytes: seq<Byte>)
    requires FifoOk(f)
    decreases |bytes|
  {
    bytes == [] || (|f.contents| < f.capacity && NeverSleeps(RingBuffer.WriteTurn(f, p, bytes[..1]), p, bytes[1..]))
  }

  ghost function PutAll(f: RingBuffer.Fifo, p: nat, bytes: seq<Byte>): (r: RingBuffer.Fifo)
    requires FifoOk(f)
    ensures FifoOk(r)
    decreases |bytes|
  {
    if bytes == [] then f else PutAll(RingBuffer.WriteTurn(f, p, bytes[..1]), p, bytes[1..])
  }

  /** A delivery goes through without sleeping exactly when the ring has room for all of it; then the
      ring holds it, in order, behind what it held. */
  lemma {:induction false} RoomForAll(f: RingBuffer.Fifo, p: nat, bytes: seq<Byte>)
    requires FifoOk(f)
    ensures NeverSleeps(f, p, bytes) <==> |f.contents| + |bytes| <= f.capacity
    ensures NeverSleeps(f, p, bytes) ==> PutAll(f, p, bytes).contents == f.contents + bytes
    decreases |bytes|
  {
    if bytes == [] {
      assert f.contents + bytes == f.contents;
    } else {
      var g := RingBuffer.WriteTurn(f, p, bytes[..1]);
      if |f.contents| < f.capacity {
        assert g.contents == f.contents + bytes[..1];
        assert f.contents + bytes[..1] + bytes[1..] == f.contents + bytes;
      }
      RoomForAll(g, p, bytes[1..]);
    }
  }

  // ---------------------------------------------------------------- what one typed byte delivers

  lemma DeliveredGrows(t: Tty, c: Byte)
    ensures t.delivered <= Typed(t, c).delivered
  {
  }

  ghost function NewBytes(t: Tty, c: Byte): seq<Byte> {
    DeliveredGrows(t, c);
    Bytes(Typed(t, c).delivered[|t.delivered|..])
  }

  /** How many bytes a key hands over. */
  lemma NewLength(t: Tty, c: Byte)
    requires |t.line| <= LIMIT
    ensures |NewBytes(t, c)| <= LIMIT
    ensures |NewBytes(t, c)| == LIMIT <==> CommitsFull(t, c)
  {
    hide Classify;
    DeliveredGrows(t, c);
  }

  /** A commit of a full line, or of one that its line end makes full. */
  predicate CommitsFull(t: Tty, c: Byte) {
    var k := Classify(t.settings, c);
    !t.literal && ((k.Flush? && |t.line| == LIMIT) || (k.EndLine? && |t.line| >= LIMIT - 1))
  }

  /** One typed byte is delivered without sleeping exactly when the ring has room for what it hands over. */
  lemma TypedFits(t: Tty, c: Byte, f: RingBuffer.Fifo, p: nat)
    requires FifoOk(f)
    ensures NeverSleeps(f, p, NewBytes(t, c)) <==> |f.contents| + |NewBytes(t, c)| <= f.capacity
    ensures NeverSleeps(f, p, NewBytes(t, c)) ==> PutAll(f, p, NewBytes(t, c)).contents == f.contents + NewBytes(t, c)
  {
    RoomForAll(f, p, NewBytes(t, c));
  }

  /** Even on an empty ring a typed byte puts the writer to sleep, exactly when it commits a full line. */
  lemma FullLineSleeps(t: Tty, c: Byte, f: RingBuffer.Fifo, p: nat)
    requires |t.line| <= LIMIT && f.capacity == CAPACITY && f.contents == []
    ensures NeverSleeps(f, p, NewBytes(t, c)) <==> !CommitsFull(t, c)
  {
    NewLength(t, c);
    RoomForAll(f, p, NewBytes(t, c));
  }
}
