/** The kernel ring buffer: a byte FIFO in a circular array with one slot kept free, and the two
    queues of processes asleep on it. */
module RingBuffer {

  import opened Basics

  // ---------------------------------------------------------------- the bounded FIFO it stands for

  /** Between two scheduling points: what is buffered, who sleeps, and all bytes in and out so far. */
  datatype Fifo = Fifo(capacity: nat, contents: seq<Byte>, readers: set<Pid>, writers: set<Pid>,
                       written: seq<Byte>, read: seq<Byte>)

  function Min(a: nat, b: nat): nat {
    if a < b then a else b
  }

  /** One turn of the loop in ringbuffer_write: store what fits, wake the readers, sleep if nothing did. */
  function WriteTurn(f: Fifo, p: Pid, data: seq<Byte>): Fifo
    requires |f.contents| <= f.capacity
  {
    var n := Min(|data|, f.capacity - |f.contents|);
    Fifo(f.capacity, f.contents + data[..n], {}, if n == 0 then f.writers + {p} else f.writers,
         f.written + data[..n], f.read)
  }

  /** One turn of the loop in ringbuffer_read. */
  function ReadTurn(f: Fifo, p: Pid, size: nat): Fifo {
    var n := Min(size, |f.contents|);
    Fifo(f.capacity, f.contents[n..], if n == 0 then f.readers + {p} else f.readers, {},
         f.written, f.read + f.contents[..n])
  }

  /** A signal takes a sleeper off both queues. */
  function Interrupt(f: Fifo, p: Pid): Fifo {
    Fifo(f.capacity, f.contents, f.readers - {p}, f.writers - {p}, f.written, f.read)
  }

  datatype Step = Write(p: Pid, data: seq<Byte>) | Read(p: Pid, size: nat) | Signal(p: Pid)

  function Next(f: Fifo, s: Step): Fifo
    requires |f.contents| <= f.capacity
  {
    match s
    case Write(p, data) => WriteTurn(f, p, data)
    case Read(p, size) => ReadTurn(f, p, size)
    case Signal(p) => Interrupt(f, p)
  }

  /** Bytes come out in the order they went in; readers and writers never sleep together. */
  ghost predicate InOrder(f: Fifo) {
    && |f.contents| <= f.capacity
    && f.written == f.read + f.contents
    && (f.readers == {} || f.writers == {})
  }

  /** Sleeping readers mean an empty buffer, sleeping writers a full one. */
  ghost predicate Justified(f: Fifo) {
    && (f.readers != {} ==> f.contents == [])
    && (f.writers != {} ==> |f.contents| == f.capacity)
  }

  lemma StepInOrder(f: Fifo, s: Step)
    requires InOrder(f)
    ensures InOrder(Next(f, s))
  {
    match s
    case Write(p, data) =>
      var n := Min(|data|, f.capacity - |f.contents|);
      assert f.read + (f.contents + data[..n]) == (f.read + f.contents) + data[..n];
    case Read(p, size) =>
      var n := Min(size, |f.contents|);
      assert f.contents == f.contents[..n] + f.contents[n..];
      assert (f.read + f.contents[..n]) + f.contents[n..] == f.read + f.contents;
    case Signal(p) =>
  }

  /** The request moves at least one byte, or there is a reason to sleep. A caller can check it. */
  predicate Sensible(f: Fifo, s: Step) {
    match s
    case Write(_, data) => |data| > 0 || |f.contents| == f.capacity
    case Read(_, size) => size > 0 || f.contents == []
    case Signal(_) => true
  }

  /** A turn queues its caller exactly when it moved no byte, wakes the other side, and moves as much as it can. */
  lemma WriteTurnQueues(f: Fifo, p: Pid, data: seq<Byte>)
    requires InOrder(f)
    ensures var z := WriteTurn(f, p, data);
            && z.writers == (if z.written == f.written then f.writers + {p} else f.writers) && z.readers == {}
            && f.written <= z.written <= f.written + data && z.read == f.read
            && (z.written == f.written + data || |z.contents| == f.capacity)
  {
    var n := Min(|data|, f.capacity - |f.contents|);
    assert data == data[..n] + data[n..];
    assert f.written + data == (f.written + data[..n]) + data[n..];
    assert |f.written + data[..n]| == |f.written| + n;
    if n == |data| { assert data[..n] == data; }
  }

  lemma ReadTurnQueues(f: Fifo, p: Pid, size: nat)
    requires InOrder(f)
    ensures var z := ReadTurn(f, p, size);
            && z.readers == (if z.read == f.read then f.readers + {p} else f.readers) && z.writers == {}
            && f.read <= z.read <= f.read + f.contents && z.written == f.written
            && (|z.read| == |f.read| + size || (z.contents == [] && |z.read| < |f.read| + size))
  {
    var n := Min(size, |f.contents|);
    assert f.contents == f.contents[..n] + f.contents[n..];
    assert f.read + f.contents == (f.read + f.contents[..n]) + f.contents[n..];
    assert |f.read + f.contents[..n]| == |f.read| + n;
  }

  /** The law of the sleepers is kept by a step exactly when its request is not an empty one on a
      buffer that could serve it: an empty request sleeps whatever the buffer holds. */
  lemma StepJustified(f: Fifo, s: Step)
    requires InOrder(f) && Justified(f)
    ensures Justified(Next(f, s)) <==> Sensible(f, s)
  {
    match s
    case Write(p, data) =>
      var n := Min(|data|, f.capacity - |f.contents|);
      var z := WriteTurn(f, p, data);
      if n == 0 { assert p in z.writers; }
    case Read(p, size) =>
      var n := Min(size, |f.contents|);
      var z := ReadTurn(f, p, size);
      if n == 0 { assert p in z.readers; }
    case Signal(p) =>
  }

  function Run(f: Fifo, steps: seq<Step>): (r: Fifo)
    requires |f.contents| <= f.capacity
    ensures |r.contents| <= r.capacity
    decreases |steps|
  {
    if steps == [] then f else Run(Next(f, steps[0]), steps[1..])
  }

  /** Any interleaving of reads, writes and signals, whatever their sizes. */
  lemma {:induction false} RunInOrder(f: Fifo, steps: seq<Step>)
    requires InOrder(f)
    ensures InOrder(Run(f, steps))
    decreases |steps|
  {
    if steps != [] {
      StepInOrder(f, steps[0]);
      RunInOrder(Next(f, steps[0]), steps[1..]);
    }
  }

  lemma {:induction false} RunJustified(f: Fifo, steps: seq<Step>)
    requires InOrder(f) && Justified(f)
    requires forall s :: s in steps ==> (s.Write? ==> |s.data| > 0) && (s.Read? ==> s.size > 0)
    ensures Justified(Run(f, steps))
    decreases |steps|
  {
    if steps != [] {
      StepInOrder(f, steps[0]);
      StepJustified(f, steps[0]);
      RunJustified(Next(f, steps[0]), steps[1..]);
    }
  }

  /** A read of zero bytes puts its caller to sleep next to a byte that is there to be read. */
  lemma EmptyReadSleeps(p: Pid, b: Byte)
    ensures var f := Fifo(1, [b], {}, {}, [b], []);
            InOrder(f) && Justified(f) && p in ReadTurn(f, p, 0).readers && ReadTurn(f, p, 0).contents == [b]
  {
  }

  // ---------------------------------------------------------------- the implementation

  class Ring {
    const size: nat
    const buffer: array<Byte>
    var readPtr: nat
    var writePtr: nat
    var readers: set<Pid>
    var writers: set<Pid>
    ghost var written: seq<Byte>
    ghost var taken: seq<Byte>

    ghost predicate Valid()
      reads this, buffer
    {
      size > 0 && buffer.Length == size && readPtr < size && writePtr < size
    }

    ghost function Contents(): (s: seq<Byte>)
      requires Valid()
      reads this, buffer
    {
      if readPtr <= writePtr then buffer[readPtr..writePtr] else buffer[readPtr..] + buffer[..writePtr]
    }

    ghost function Model(): Fifo
      requires Valid()
      reads this, buffer
    {
      Fifo(size - 1, Contents(), readers, writers, written, taken)
    }

    constructor (size: nat)
      requires size > 0
      ensures Valid() && this.size == size && fresh(buffer)
      ensures Model() == Fifo(size - 1, [], {}, {}, [], [])
    {
      this.size := size;
      buffer := new Byte[size](_ => 0);
      readPtr, writePtr, readers, writers := 0, 0, {}, {};
      written, taken := [], [];
    }

    /** Counts what can be read: exactly the length of the contents. */
    method ReadAvailable() returns (n: nat)
      requires Valid()
      ensures n == |Contents()|
    {
      if readPtr == writePtr {
        return 0;
      }
      if readPtr > writePtr {
        return size - readPtr + writePtr;
      } else {
        return writePtr - readPtr;
      }
    }

    /** Counts what can be written: the two counts always add up to size - 1. */
    method WriteAvailable() returns (n: nat)
      requires Valid()
      ensures n + |Contents()| == size - 1
    {
      if readPtr == writePtr {
        return size - 1;
      }
      if readPtr > writePtr {
        return readPtr - writePtr - 1;
      } else {
        return size - writePtr + readPtr - 1;
      }
    }

    method BumpWrite()
      requires Valid()
      modifies `writePtr
      ensures writePtr == if old(writePtr) + 1 == size then 0 else old(writePtr) + 1
    {
      writePtr := writePtr + 1;
      if writePtr == size {
        writePtr := 0;
      }
    }

    method BumpRead()
      requires Valid()
      modifies `readPtr
      ensures readPtr == if old(readPtr) + 1 == size then 0 else old(readPtr) + 1
    {
      readPtr := readPtr + 1;
      if readPtr == size {
        readPtr := 0;
      }
    }

    method PutByte(b: Byte)
      requires Valid() && |Contents()| < size - 1
      modifies `writePtr, buffer
      ensures Valid() && Contents() == old(Contents()) + [b]
    {
      buffer[writePtr] := b;
      BumpWrite();
    }

    method GetByte() returns (b: Byte)
      requires Valid() && Contents() != []
      modifies `readPtr
      ensures Valid() && [b] + Contents() == old(Contents())
    {
      ghost var was := Contents();
      b := buffer[readPtr];
      assert was[0] == b;
      BumpRead();
      assert Contents() == was[1..];
    }

    /** The inner loop of ringbuffer_write. */
    method StoreAll(data: seq<Byte>) returns (n: nat)
      requires Valid()
      modifies `writePtr, buffer
      ensures Valid() && n == Min(|data|, size - 1 - |old(Contents())|)
      ensures Contents() == old(Contents()) + data[..n]
    {
      hide Contents;
      ghost var before := Contents();
      n := 0;
      var room: nat := WriteAvailable();
      while room > 0 && n < |data|
        invariant Valid() && n <= |data| && room + |Contents()| == size - 1
        invariant before == old(Contents()) && Contents() == before + data[..n]
        invariant room + |before| + n == size - 1
      {
        PutByte(data[n]);
        Snoc(before, data, n);
        n := n + 1;
        room := WriteAvailable();
      }
    }

    /** The inner loop of ringbuffer_read. */
    method TakeAll(max: nat) returns (bytes: seq<Byte>)
      requires Valid()
      modifies `readPtr
      ensures Valid() && |bytes| == Min(max, |old(Contents())|)
      ensures bytes + Contents() == old(Contents())
    {
      hide Contents;
      bytes := [];
      var there: nat := ReadAvailable();
      while there > 0 && |bytes| < max
        invariant Valid() && |bytes| <= max && there == |Contents()|
        invariant bytes + Contents() == old(Contents())
      {
        var b := GetByte();
        Regroup(bytes, [b], Contents());
        bytes := bytes + [b];
        there := ReadAvailable();
      }
    }

    /** One turn of ringbuffer_write by process `p`. */
    method Write(p: Pid, data: seq<Byte>) returns (n: nat)
      requires Valid()
      modifies this, buffer
      ensures Valid() && n == Min(|data|, size - 1 - |old(Contents())|)
      ensures Model() == WriteTurn(old(Model()), p, data)
    {
      ContentsFit();
      n := StoreAll(data);
      readers := {};
      written := written + data[..n];
      if n == 0 {
        writers := writers + {p};
      }
    }

    /** One turn of ringbuffer_read by process `p`. */
    method Read(p: Pid, max: nat) returns (bytes: seq<Byte>)
      requires Valid()
      modifies this
      ensures Valid() && bytes == old(Contents())[..Min(max, |old(Contents())|)]
      ensures Model() == ReadTurn(old(Model()), p, max)
    {
      bytes := TakeAll(max);
      writers := {};
      taken := taken + bytes;
      if |bytes| == 0 {
        readers := readers + {p};
      }
    }

    lemma ContentsFit()
      requires Valid()
      ensures |Contents()| <= size - 1
    {
    }
  }
}
