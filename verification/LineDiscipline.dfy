/** The input side of the terminal driver, on values: what one typed byte does to the line being
    edited and to the bytes the slave can read. Every byte carries the time it was typed. */
module LineDiscipline {

  import opened Basics

  const LIMIT: nat := 4096
  const NL: Byte := 10
  const CR: Byte := 13
  const SPACE: Byte := 32

  /** The flags and control characters of a termios that the input path looks at. */
  datatype Settings = Settings(isig: bool, istrip: bool, igncr: bool, inlcr: bool, icrnl: bool, icanon: bool,
                               iexten: bool, iuclc: bool, echoe: bool, echok: bool, echoctl: bool, cc: Controls)

  datatype Controls = Controls(intr: Byte, quit: Byte, susp: Byte, lnext: Byte, erase: Byte, werase: Byte,
                               kill: Byte, eof: Byte, eol: Byte)

  const SANE: Settings :=
    Settings(true, false, false, false, true, true, true, false, true, true, false,
             Controls(3, 28, 26, 22, 0x7f, 23, 21, 4, 0))

  datatype Cell = Cell(byte: Byte, at: nat)

  datatype Tty = Tty(settings: Settings, line: seq<Cell>, literal: bool, delivered: seq<Cell>, clock: nat)

  function Bytes(cells: seq<Cell>): (r: seq<Byte>)
    ensures |r| == |cells| && forall i :: 0 <= i < |r| ==> r[i] == cells[i].byte
  {
    seq(|cells|, i requires 0 <= i < |cells| => cells[i].byte)
  }

  lemma BytesConcat(a: seq<Cell>, b: seq<Cell>)
    ensures Bytes(a + b) == Bytes(a) + Bytes(b)
  {
  }

  // ---------------------------------------------------------------- one typed byte

  /** A typed char is signed and a control character is not: bytes from 128 up match none. */
  predicate Is(c: Byte, control: Byte) {
    c == control && c < 128
  }

  datatype Key =
    | Ignored | Quote | Rubout | RuboutWord | KillLine | Flush
    | Text(b: Byte) | EndLine(b: Byte) | Raw(b: Byte)

  predicate Signals(s: Settings, c: Byte) {
    s.isig && (Is(c, s.cc.intr) || Is(c, s.cc.quit) || Is(c, s.cc.susp))
  }

  function Stripped(s: Settings, c: Byte): Byte {
    if s.istrip then c % 128 else c
  }

  function Translated(s: Settings, c: Byte): Byte {
    if s.inlcr && c == NL then CR else if s.icrnl && c == CR then NL else c
  }

  function Lowered(s: Settings, c: Byte): Byte {
    if s.iuclc && s.iexten && 65 <= c <= 90 then c + 32 else c
  }

  function Classify(s: Settings, typed: Byte): Key {
    if Signals(s, typed) || (s.igncr && Stripped(s, typed) == CR) then Ignored
    else
      var c := Translated(s, Stripped(s, typed));
      if !s.icanon then Raw(c)
      else if Is(c, s.cc.lnext) && s.iexten then Quote
      else EditKey(s, Lowered(s, c))
  }

  function EditKey(s: Settings, c: Byte): Key {
    if s.echoe && Is(c, s.cc.erase) then Rubout
    else if s.echoe && Is(c, s.cc.werase) then if s.iexten then RuboutWord else Ignored
    else if !s.echoe && s.echoctl && (Is(c, s.cc.erase) || Is(c, s.cc.werase)) then Ignored
    else if Is(c, s.cc.kill) then if s.echok then KillLine else Ignored
    else if Is(c, s.cc.eof) then Flush
    else if c == NL || Is(c, s.cc.eol) then EndLine(c)
    else Text(c)
  }

  function Put(line: seq<Cell>, x: Cell): (r: seq<Cell>)
    ensures |line| <= LIMIT ==> |r| <= LIMIT
  {
    if |line| < LIMIT then line + [x] else line
  }

  function DropLast(line: seq<Cell>): seq<Cell> {
    if line == [] then [] else line[..|line| - 1]
  }

  function DropWord(line: seq<Cell>): (r: seq<Cell>)
    ensures r <= line
  {
    if line == [] || line[|line| - 1].byte == SPACE then line else DropWord(line[..|line| - 1])
  }

  /** A line end takes the last slot even of a full line. */
  function Ended(line: seq<Cell>, x: Cell): (r: seq<Cell>) {
    if |line| < LIMIT then line + [x] else line[..|line| - 1] + [x]
  }

  function Press(t: Tty, k: Key): Tty {
    var now := t.clock + 1;
    match k
    case Ignored => Tty(t.settings, t.line, t.literal, t.delivered, now)
    case Quote => Tty(t.settings, t.line, true, t.delivered, now)
    case Rubout => Tty(t.settings, DropLast(t.line), t.literal, t.delivered, now)
    case RuboutWord => Tty(t.settings, DropWord(t.line), t.literal, t.delivered, now)
    case KillLine => Tty(t.settings, [], t.literal, t.delivered, now)
    case Flush => Tty(t.settings, [], t.literal, t.delivered + t.line, now)
    case Text(b) => Tty(t.settings, Put(t.line, Cell(b, t.clock)), t.literal, t.delivered, now)
    case EndLine(b) => Tty(t.settings, [], t.literal, t.delivered + Ended(t.line, Cell(b, t.clock)), now)
    case Raw(b) => Tty(t.settings, t.line, t.literal, t.delivered + [Cell(b, t.clock)], now)
  }

  function Typed(t: Tty, c: Byte): Tty {
    if t.literal then Tty(t.settings, Put(t.line, Cell(c, t.clock)), false, t.delivered, t.clock + 1)
    else Press(t, Classify(t.settings, c))
  }

  function SetSettings(t: Tty, s: Settings): Tty {
    if t.settings.icanon && !s.icanon then Tty(s, [], t.literal, t.delivered + t.line, t.clock)
    else Tty(s, t.line, t.literal, t.delivered, t.clock)
  }

  function TypeAll(t: Tty, typed: seq<Byte>): Tty
    decreases |typed|
  {
    if typed == [] then t else TypeAll(Typed(t, typed[0]), typed[1..])
  }

  // ---------------------------------------------------------------- nothing leaves before a commit

  predicate Commits(t: Tty, c: Byte) {
    var k := Classify(t.settings, c);
    !t.literal && (k.EndLine? || k.Flush?)
  }

  /** In canonical mode a byte hands over the whole line, closed by the line end if it is one, or
      nothing at all. */
  lemma CanonicalStep(t: Tty, c: Byte)
    requires t.settings.icanon
    ensures Commits(t, c) ==> Typed(t, c).line == []
    ensures Commits(t, c) && Classify(t.settings, c).Flush? ==> Typed(t, c).delivered == t.delivered + t.line
    ensures Commits(t, c) && Classify(t.settings, c).EndLine? ==>
      exists b :: (b == NL || b == t.settings.cc.eol)
                  && Typed(t, c).delivered == t.delivered + Ended(t.line, Cell(b, t.clock))
    ensures !Commits(t, c) ==> Typed(t, c).delivered == t.delivered
  {
  }

  predicate Quiet(t: Tty, typed: seq<Byte>)
    decreases |typed|
  {
    typed == [] || (!Commits(t, typed[0]) && Quiet(Typed(t, typed[0]), typed[1..]))
  }

  lemma {:induction false} NothingBeforeCommit(t: Tty, typed: seq<Byte>)
    requires t.settings.icanon && Quiet(t, typed)
    ensures TypeAll(t, typed).delivered == t.delivered
    decreases |typed|
  {
    if typed != [] {
      CanonicalStep(t, typed[0]);
      NothingBeforeCommit(Typed(t, typed[0]), typed[1..]);
    }
  }

  // ---------------------------------------------------------------- typed order

  datatype Event = Key(c: Byte) | Settle(s: Settings)

  function Next(t: Tty, e: Event): Tty {
    match e
    case Key(c) => Typed(t, c)
    case Settle(s) => SetSettings(t, s)
  }

  function Run(t: Tty, events: seq<Event>): Tty
    decreases |events|
  {
    if events == [] then t else Run(Next(t, events[0]), events[1..])
  }

  predicate Increasing(s: seq<Cell>) {
    forall i, j :: 0 <= i < j < |s| ==> s[i].at < s[j].at
  }

  predicate Before(s: seq<Cell>, time: nat) {
    forall i :: 0 <= i < |s| ==> s[i].at < time
  }

  /** What was delivered, followed by what is still being edited, is in the order it was typed. */
  predicate InOrder(t: Tty) {
    Increasing(t.delivered + t.line) && Before(t.delivered + t.line, t.clock)
  }

  predicate Good(t: Tty) {
    InOrder(t) && |t.line| <= LIMIT && (!t.settings.icanon ==> t.line == [] && !t.literal)
  }

  /** Leaves canonical mode with a quoted byte still to come. */
  predicate LeavesQuoting(t: Tty, s: Settings) {
    t.settings.icanon && !s.icanon && t.literal
  }

  lemma CutKeeps(a: seq<Cell>, b: seq<Cell>, c: seq<Cell>, time: nat)
    requires Increasing(a + b) && Before(a + b, time) && c <= b
    ensures Increasing(a + c) && Before(a + c, time + 1)
  {
    forall i | 0 <= i < |a + c| ensures (a + c)[i] == (a + b)[i] {}
  }

  lemma GrowKeeps(a: seq<Cell>, b: seq<Cell>, x: Cell)
    requires Increasing(a + b) && Before(a + b, x.at)
    ensures Increasing(a + (b + [x])) && Before(a + (b + [x]), x.at + 1)
  {
    assert a + (b + [x]) == (a + b) + [x];
  }

  lemma TypedKeeps(t: Tty, c: Byte)
    requires Good(t)
    ensures Good(Typed(t, c))
  {
    var k := if t.literal then Text(c) else Classify(t.settings, c);
    CutKeeps(t.delivered, t.line, t.line, t.clock);
    match k {
      case Rubout => CutKeeps(t.delivered, t.line, DropLast(t.line), t.clock);
      case RuboutWord => CutKeeps(t.delivered, t.line, DropWord(t.line), t.clock);
      case KillLine => CutKeeps(t.delivered, t.line, [], t.clock);
      case Flush => assert t.delivered + t.line + [] == t.delivered + t.line;
      case Text(b) => GrowKeeps(t.delivered, t.line, Cell(b, t.clock));
      case EndLine(b) =>
        var kept := if |t.line| < LIMIT then t.line else t.line[..|t.line| - 1];
        CutKeeps(t.delivered, t.line, kept, t.clock);
        assert Before(t.delivered + kept, t.clock) by {
          forall i | 0 <= i < |t.delivered + kept| ensures (t.delivered + kept)[i] == (t.delivered + t.line)[i] {}
        }
        GrowKeeps(t.delivered, kept, Cell(b, t.clock));
        assert t.delivered + (kept + [Cell(b, t.clock)]) + [] == t.delivered + (kept + [Cell(b, t.clock)]);
      case Raw(b) =>
        GrowKeeps(t.delivered, [], Cell(b, t.clock));
        assert t.delivered + ([] + [Cell(b, t.clock)]) == (t.delivered + [Cell(b, t.clock)]) + [];
        assert t.delivered + t.line == t.delivered + [];
      case _ =>
    }
  }

  lemma SettingsKeep(t: Tty, s: Settings)
    requires Good(t)
    ensures Good(SetSettings(t, s)) <==> !LeavesQuoting(t, s)
  {
    assert t.delivered + t.line + [] == t.delivered + t.line;
  }

  /** Leaving canonical mode delivers the pending line, and it alone; any other change of settings delivers
      and drops nothing. */
  lemma SettingsDeliver(t: Tty, s: Settings)
    ensures var z := SetSettings(t, s);
            && z.settings == s && z.literal == t.literal
            && z.delivered + z.line == t.delivered + t.line
            && z.line == if t.settings.icanon && !s.icanon then [] else t.line
  {
    assert t.delivered + t.line + [] == t.delivered + t.line;
  }

  // ---------------------------------------------------------------- what the flags mean

  /** No flag that changes, swallows or holds back a byte. */
  predicate PassesAll(s: Settings) {
    !s.icanon && !s.isig && !s.istrip && !s.igncr && !s.inlcr && !s.icrnl
  }

  /** Then every typed sequence arrives as it is. */
  lemma {:induction false} RawPassesThrough(t: Tty, typed: seq<Byte>)
    requires PassesAll(t.settings) && !t.literal
    ensures Bytes(TypeAll(t, typed).delivered) == Bytes(t.delivered) + typed
    decreases |typed|
  {
    if typed == [] {
      assert Bytes(t.delivered) + [] == Bytes(t.delivered);
    } else {
      var z := Typed(t, typed[0]);
      assert z.delivered == t.delivered + [Cell(typed[0], t.clock)];
      RawPassesThrough(z, typed[1..]);
      assert Bytes(z.delivered) == Bytes(t.delivered) + [typed[0]];
      assert Bytes(t.delivered) + [typed[0]] + typed[1..] == Bytes(t.delivered) + typed;
    }
  }

  /** The byte left the line and the delivered bytes as they were. */
  ghost predicate Swallowed(t: Tty, c: Byte) {
    Typed(t, c).line == t.line && Typed(t, c).delivered == t.delivered
  }

  /** What each input flag does to one byte in raw mode. */
  lemma RawFlags(t: Tty, c: Byte)
    requires !t.settings.icanon && !t.literal
    ensures t.settings.isig && c < 128 && c in {t.settings.cc.intr, t.settings.cc.quit, t.settings.cc.susp} ==>
              Swallowed(t, c)
    ensures !t.settings.isig && t.settings.igncr && c == CR ==> Swallowed(t, c)
    ensures !t.settings.isig && !t.settings.igncr && !t.settings.inlcr && t.settings.icrnl && c == CR ==>
              Typed(t, c).delivered == t.delivered + [Cell(NL, t.clock)]
    ensures !t.settings.isig && t.settings.inlcr && c == NL ==>
              Typed(t, c).delivered == t.delivered + [Cell(CR, t.clock)]
    ensures !t.settings.isig && t.settings.istrip && c >= 128 && c != 128 + CR && c != 128 + NL ==>
              Typed(t, c).delivered == t.delivered + [Cell(c - 128, t.clock)]
  {
  }

  /** What the local flags do to the editing keys in canonical mode, for a byte that no earlier flag touches. */
  lemma EditingFlags(t: Tty, c: Byte)
    requires t.settings.icanon && !t.literal && !t.settings.isig && !t.settings.istrip && c < 128
    requires c != CR && c != NL && !(t.settings.iexten && c == t.settings.cc.lnext)
    requires !(t.settings.iuclc && t.settings.iexten && 65 <= c <= 90)
    ensures t.settings.echoe && c == t.settings.cc.erase ==>
              Typed(t, c).line == (if t.line == [] then [] else t.line[..|t.line| - 1])
              && Typed(t, c).delivered == t.delivered
    ensures t.settings.echoe && !t.settings.iexten && c == t.settings.cc.werase && c != t.settings.cc.erase ==>
              Swallowed(t, c)
    ensures !t.settings.echoe && t.settings.echoctl && c in {t.settings.cc.erase, t.settings.cc.werase} ==>
              Swallowed(t, c)
    ensures c == t.settings.cc.kill && c !in {t.settings.cc.erase, t.settings.cc.werase} ==>
              if t.settings.echok then Typed(t, c).line == [] && Typed(t, c).delivered == t.delivered
              else Swallowed(t, c)
  {
  }

  /** A quoted byte and, with the extensions on, an upper-case letter that is to be lowered. */
  lemma QuoteAndCase(t: Tty, c: Byte)
    requires |t.line| < LIMIT
    ensures t.literal ==> Typed(t, c).line == t.line + [Cell(c, t.clock)] && !Typed(t, c).literal
    ensures !t.literal && t.settings.icanon && t.settings.iexten && !t.settings.isig && !t.settings.istrip
              && c < 128 && c == t.settings.cc.lnext && c != CR && c != NL ==>
              Typed(t, c).literal && Swallowed(t, c)
    ensures !t.literal && t.settings.icanon && t.settings.iexten && !t.settings.isig && !t.settings.istrip
              && t.settings.iuclc && 65 <= c <= 90 && c != t.settings.cc.lnext
              && EditKey(t.settings, c + 32) == Text(c + 32) ==>
              Typed(t, c).line == t.line + [Cell(c + 32, t.clock)]
  {
  }

  predicate Careful(t: Tty, events: seq<Event>)
    decreases |events|
  {
    events == []
    || ((events[0].Settle? ==> !LeavesQuoting(t, events[0].s)) && Careful(Next(t, events[0]), events[1..]))
  }

  /** Typed order holds throughout any run that never leaves canonical mode in the middle of a quote. */
  lemma {:induction false} RunKeepsOrder(t: Tty, events: seq<Event>)
    requires Good(t) && Careful(t, events)
    ensures Good(Run(t, events))
    decreases |events|
  {
    if events != [] {
      match events[0]
      case Key(c) => TypedKeeps(t, c); RunKeepsOrder(Next(t, events[0]), events[1..]);
      case Settle(s) => SettingsKeep(t, s); RunKeepsOrder(Next(t, events[0]), events[1..]);
    }
  }

  lemma {:induction false} TypingKeepsOrder(t: Tty, typed: seq<Byte>)
    requires Good(t)
    ensures Good(TypeAll(t, typed))
    decreases |typed|
  {
    if typed != [] {
      TypedKeeps(t, typed[0]);
      TypingKeepsOrder(Typed(t, typed[0]), typed[1..]);
    }
  }

  /** A byte that raw mode passes on whatever the control characters are. */
  function PlainByte(s: Settings): (b: Byte)
    ensures !Signals(s, b) && b < 128 && b != CR
  {
    if !Signals(s, 65) then 65 else if !Signals(s, 66) then 66 else if !Signals(s, 67) then 67 else 68
  }

  /** Leaving canonical mode keeps typed order, whatever is typed afterwards, exactly when no quoted
      byte is outstanding: that byte would land in the line buffer and be overtaken by the next one. */
  lemma LeavingKeepsOrder(t: Tty, s: Settings)
    requires Good(t) && t.settings.icanon && !s.icanon
    ensures (forall typed :: InOrder(TypeAll(SetSettings(t, s), typed))) <==> !t.literal
  {
    var left := SetSettings(t, s);
    if t.literal {
      Overtaken(t, s);
    } else {
      SettingsKeep(t, s);
      forall typed ensures InOrder(TypeAll(left, typed)) {
        TypingKeepsOrder(left, typed);
      }
    }
  }

  lemma Overtaken(t: Tty, s: Settings)
    requires Good(t) && LeavesQuoting(t, s)
    ensures !InOrder(TypeAll(SetSettings(t, s), [65, PlainByte(s)]))
  {
    hide Classify, Increasing, Before, Good;
    var b := PlainByte(s);
    var left := SetSettings(t, s);
    var one := Typed(left, 65);
    QuotedByte(left, 65);
    RawByte(one, b);
    var two := Typed(one, b);
    assert [65, b][1..] == [b] && [b][1..] == [];
    assert TypeAll(one, [b]) == TypeAll(two, []);
    assert TypeAll(left, [65, b]) == two;
    Crossed(two.delivered, two.line);
  }

  /** A quoted byte goes to the line, in whatever mode. */
  lemma QuotedByte(t: Tty, c: Byte)
    requires t.literal && t.line == []
    ensures Typed(t, c) == Tty(t.settings, [Cell(c, t.clock)], false, t.delivered, t.clock + 1)
  {
  }

  /** An ordinary byte in raw mode is delivered at once. */
  lemma RawByte(t: Tty, b: Byte)
    requires !t.literal && !t.settings.icanon && !Signals(t.settings, b) && b < 128 && b != CR
    ensures Typed(t, b).line == t.line && |Typed(t, b).delivered| == |t.delivered| + 1
    ensures Typed(t, b).delivered[|t.delivered|].at == t.clock
  {
  }

  lemma Crossed(delivered: seq<Cell>, line: seq<Cell>)
    requires delivered != [] && line != [] && delivered[|delivered| - 1].at > line[0].at
    ensures !Increasing(delivered + line)
  {
    var all := delivered + line;
    assert all[|delivered| - 1].at > all[|delivered|].at;
  }
}
