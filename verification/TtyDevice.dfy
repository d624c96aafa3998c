/** The terminal driver's input path as it works: a line buffer changed in place, a length, a flag, and
    the stream of bytes put into the slave's input ring. */
module TtyDevice {

  import opened Basics
  import opened LineDiscipline

  lemma BytesPush(cells: seq<Cell>, x: Cell)
    ensures Bytes(cells + [x]) == Bytes(cells) + [x.byte]
  {
  }

  lemma BytesPrefix(cells: seq<Cell>, n: nat)
    requires n <= |cells|
    ensures Bytes(cells[..n]) == Bytes(cells)[..n]
  {
  }

  class Device {
    var settings: Settings
    const lineBuffer: array<Byte>
    var lineLength: nat
    var nextLiteral: bool
    var delivered: seq<Byte>
    ghost var state: Tty

    ghost predicate Valid()
      reads this, lineBuffer
    {
      && lineBuffer.Length == LIMIT + 2
      && lineLength <= LIMIT
      && settings == state.settings
      && nextLiteral == state.literal
      && lineBuffer[..lineLength] == Bytes(state.line)
      && delivered == Bytes(state.delivered)
    }

    constructor ()
      ensures Valid() && state == Tty(SANE, [], false, [], 0)
    {
      settings := SANE;
      lineBuffer := new Byte[LIMIT + 2](_ => 0);
      lineLength, nextLiteral, delivered := 0, false, [];
      state := Tty(SANE, [], false, [], 0);
    }

    method LinePutc(c: Byte)
      requires lineBuffer.Length == LIMIT + 2 && lineLength <= LIMIT
      modifies `lineLength, lineBuffer
      ensures lineLength <= LIMIT
      ensures lineBuffer[..lineLength] ==
              if old(lineLength) < LIMIT then old(lineBuffer[..lineLength]) + [c] else old(lineBuffer[..lineLength])
    {
      if lineLength < LIMIT {
        lineBuffer[lineLength] := c;
        lineLength := lineLength + 1;
      }
    }

    method Erase(n: nat)
      requires lineLength <= lineBuffer.Length
      modifies `lineLength, lineBuffer
      ensures lineLength == if n < old(lineLength) then old(lineLength) - n else 0
      ensures lineBuffer[..lineLength] == old(lineBuffer[..lineLength])[..lineLength]
    {
      var amount := if lineLength < n then lineLength else n;
      ghost var goal := lineLength - amount;
      while amount > 0
        invariant 0 <= amount && lineLength == goal + amount && lineLength <= lineBuffer.Length
        invariant lineBuffer[..lineLength] == old(lineBuffer[..lineLength])[..lineLength]
      {
        lineBuffer[lineLength - 1] := 0;
        lineLength := lineLength - 1;
        amount := amount - 1;
      }
    }

    method EraseOne(ghost line: seq<Cell>)
      requires lineLength <= lineBuffer.Length && lineBuffer[..lineLength] == Bytes(line)
      modifies `lineLength, lineBuffer
      ensures lineLength <= old(lineLength) && lineBuffer[..lineLength] == Bytes(DropLast(line))
    {
      if |line| > 0 { BytesPrefix(line, |line| - 1); }
      Erase(1);
    }

    /** The word-erase loop. */
    method EraseWord(ghost line: seq<Cell>)
      requires lineLength <= lineBuffer.Length && lineBuffer[..lineLength] == Bytes(line)
      modifies `lineLength, lineBuffer
      ensures lineLength <= old(lineLength) && lineBuffer[..lineLength] == Bytes(DropWord(line))
    {
      ghost var left := line;
      while lineLength > 0 && lineBuffer[lineLength - 1] != SPACE
        invariant lineLength <= old(lineLength) && lineBuffer[..lineLength] == Bytes(left)
        invariant DropWord(left) == DropWord(line)
      {
        BytesPrefix(left, |left| - 1);
        assert lineBuffer[lineLength - 1] == lineBuffer[..lineLength][lineLength - 1];
        Erase(1);
        left := left[..|left| - 1];
      }
      assert lineLength > 0 ==> lineBuffer[lineLength - 1] == lineBuffer[..lineLength][lineLength - 1];
    }

    method LineFlush()
      requires lineLength <= lineBuffer.Length
      modifies `lineLength, `delivered
      ensures lineLength == 0 && delivered == old(delivered) + old(lineBuffer[..lineLength])
    {
      var i := 0;
      ghost var all := lineLength;
      while lineLength > 0
        invariant 0 <= i && i + lineLength == all <= lineBuffer.Length
        invariant delivered == old(delivered) + lineBuffer[..i]
      {
        Snoc(old(delivered), lineBuffer[..], i);
        delivered := delivered + [lineBuffer[i]];
        lineLength := lineLength - 1;
        i := i + 1;
      }
    }

    /** One typed byte. */
    method ProcessInput(typed: Byte)
      requires Valid()
      modifies this, lineBuffer
      ensures Valid() && state == Typed(old(state), typed)
    {
      hide Bytes, DropWord;
      ghost var was := state;
      var c := typed;
      state := Typed(state, typed);
      if nextLiteral {
        nextLiteral := false;
        BytesPush(was.line, Cell(c, was.clock));
        LinePutc(c);
        return;
      }
      if Signals(settings, c) {
        return;
      }
      if settings.istrip {
        c := c % 128;
      }
      if settings.igncr && c == CR {
        return;
      }
      if settings.inlcr && c == NL {
        c := CR;
      } else if settings.icrnl && c == CR {
        c := NL;
      }
      if settings.icanon {
        if Is(c, settings.cc.lnext) && settings.iexten {
          nextLiteral := true;
          return;
        }
        if settings.iuclc && settings.iexten && 65 <= c <= 90 {
          c := c + 32;
        }
        assert state == Press(was, EditKey(settings, c));
        Canonical(c, was);
      } else {
        BytesPush(was.delivered, Cell(c, was.clock));
        delivered := delivered + [c];
      }
    }

    /** The canonical branch, once the byte has been translated. */
    method Canonical(c: Byte, ghost was: Tty)
      requires lineBuffer.Length == LIMIT + 2 && lineLength <= LIMIT && settings == was.settings
      requires nextLiteral == was.literal && lineBuffer[..lineLength] == Bytes(was.line)
      requires delivered == Bytes(was.delivered)
      requires state == Press(was, EditKey(settings, c))
      modifies `lineLength, `delivered, lineBuffer
      ensures Valid()
    {
      hide Bytes, DropWord, DropLast, Put, Ended;
      var s := settings;
      if s.echoe {
        if Is(c, s.cc.erase) {
          EraseOne(was.line);
          return;
        } else if Is(c, s.cc.werase) {
          if !s.iexten {
            return;
          }
          EraseWord(was.line);
          return;
        }
      } else if s.echoctl && (Is(c, s.cc.erase) || Is(c, s.cc.werase)) {
        return;
      }
      if Is(c, s.cc.kill) {
        if s.echok {
          Erase(lineLength);
        }
        return;
      }
      if Is(c, s.cc.eof) {
        BytesConcat(was.delivered, was.line);
        LineFlush();
        return;
      }
      Enter(c, was);
    }

    /** A byte that is no editing key; the line end closes and hands over the line. */
    method Enter(c: Byte, ghost was: Tty)
      requires lineBuffer.Length == LIMIT + 2 && lineLength <= LIMIT && settings == was.settings
      requires nextLiteral == was.literal && lineBuffer[..lineLength] == Bytes(was.line)
      requires delivered == Bytes(was.delivered)
      requires state == Press(was, if c == NL || Is(c, settings.cc.eol) then EndLine(c) else Text(c))
      modifies `lineLength, `delivered, lineBuffer
      ensures Valid()
    {
      hide Bytes, DropWord;
      ghost var x := Cell(c, was.clock);
      LinePutc(c);
      BytesPush(was.line, x);
      if c == NL || Is(c, settings.cc.eol) {
        lineBuffer[lineLength - 1] := c;
        assert lineBuffer[..lineLength] == Bytes(Ended(was.line, x)) by {
          ghost var kept := if |was.line| < LIMIT then was.line else was.line[..|was.line| - 1];
          BytesPrefix(was.line, |kept|);
          BytesPush(kept, x);
        }
        BytesConcat(was.delivered, Ended(was.line, x));
        LineFlush();
      }
    }

    /** A whole write to the master side. */
    method WriteMaster(buffer: seq<Byte>)
      requires Valid()
      modifies this, lineBuffer
      ensures Valid() && state == TypeAll(old(state), buffer)
    {
      ghost var start := state;
      assert buffer[0..] == buffer;
      for i := 0 to |buffer|
        invariant Valid() && TypeAll(start, buffer) == TypeAll(state, buffer[i..])
      {
        assert buffer[i..][1..] == buffer[i + 1..];
        ProcessInput(buffer[i]);
      }
      assert buffer[|buffer|..] == [];
    }

    /** The TCSETS request. */
    method SetAttributes(s: Settings)
      requires Valid()
      modifies this
      ensures Valid() && state == SetSettings(old(state), s)
    {
      if settings.icanon && !s.icanon {
        BytesConcat(state.delivered, state.line);
        LineFlush();
      }
      settings := s;
      state := SetSettings(state, s);
    }
  }
}
