/** A line editor that knows nothing of terminals: typed bytes are cut at the line ends, each piece is
    edited on its own, and the pieces are put together again. The driver with its default settings
    delivers exactly that. */
module LineEditor {

  import opened Basics
  import opened LineDiscipline

  const LITERAL: Byte := 22
  const RUBOUT: Byte := 0x7f
  const WORD: Byte := 23
  const KILL: Byte := 21
  const EOT: Byte := 4

  /** The text edited so far, and whether the next byte is taken as it is. */
  datatype Draft = Draft(text: seq<Byte>, quoted: bool)

  const BLANK: Draft := Draft([], false)

  predicate Ends(c: Byte) {
    c == NL || c == CR || c == 0 || c == EOT
  }

  predicate Plain(c: Byte) {
    !Ends(c) && c != LITERAL && c != RUBOUT && c != WORD && c != KILL && c !in [3, 26, 28]
  }

  function Append(text: seq<Byte>, c: Byte): seq<Byte> {
    if |text| < LIMIT then text + [c] else text
  }

  /** The text up to and including its last space. */
  function WholeWords(text: seq<Byte>): (r: seq<Byte>)
    ensures r <= text && SPACE !in text[|r|..]
    ensures r == [] || r[|r| - 1] == SPACE
  {
    if text == [] || text[|text| - 1] == SPACE then text
    else
      var r := WholeWords(text[..|text| - 1]);
      assert text[|r|..] == text[..|text| - 1][|r|..] + [text[|text| - 1]];
      r
  }

  function Edit1(d: Draft, c: Byte): Draft {
    if d.quoted then Draft(Append(d.text, c), false)
    else if c == LITERAL then Draft(d.text, true)
    else if c == RUBOUT then Draft(if d.text == [] then [] else d.text[..|d.text| - 1], false)
    else if c == WORD then Draft(WholeWords(d.text), false)
    else if c == KILL then BLANK
    else if Plain(c) then Draft(Append(d.text, c), false)
    else d
  }

  function Edit(d: Draft, piece: seq<Byte>): Draft
    decreases |piece|
  {
    if piece == [] then d else Edit(Edit1(d, piece[0]), piece[1..])
  }

  /** Where the first line end is that no quote protects; the length if there is none. */
  function FirstEnd(typed: seq<Byte>, quoted: bool): (k: nat)
    ensures k <= |typed|
    decreases |typed|
  {
    if typed == [] then 0
    else if quoted then 1 + FirstEnd(typed[1..], false)
    else if Ends(typed[0]) then 0
    else 1 + FirstEnd(typed[1..], typed[0] == LITERAL)
  }

  /** A return reads as a newline, the end-of-file key leaves no trace. */
  function Closed(text: seq<Byte>, c: Byte): seq<Byte> {
    if c == EOT then text
    else (if |text| < LIMIT then text else text[..|text| - 1]) + [if c == CR then NL else c]
  }

  function Lines(typed: seq<Byte>): seq<Byte>
    decreases |typed|
  {
    var k := FirstEnd(typed, false);
    if k == |typed| then [] else Closed(Edit(BLANK, typed[..k]).text, typed[k]) + Lines(typed[k + 1..])
  }

  function Unfinished(typed: seq<Byte>): Draft
    decreases |typed|
  {
    var k := FirstEnd(typed, false);
    if k == |typed| then Edit(BLANK, typed) else Unfinished(typed[k + 1..])
  }

  // ---------------------------------------------------------------- laws of the editor

  lemma {:induction false} EditConcat(d: Draft, a: seq<Byte>, b: seq<Byte>)
    ensures Edit(d, a + b) == Edit(Edit(d, a), b)
    decreases |a|
  {
    if a == [] {
      assert a + b == b;
    } else {
      assert (a + b)[1..] == a[1..] + b;
      EditConcat(Edit1(d, a[0]), a[1..], b);
    }
  }

  lemma EditTwo(d: Draft, x: Byte, y: Byte)
    ensures Edit(d, [x, y]) == Edit1(Edit1(d, x), y)
  {
    assert [x, y][1..] == [y] && [y][1..] == [];
    assert Edit(Edit1(d, x), [y]) == Edit(Edit1(Edit1(d, x), y), []);
  }

  lemma {:induction false} EditFits(d: Draft, piece: seq<Byte>)
    requires |d.text| <= LIMIT
    ensures |Edit(d, piece).text| <= LIMIT
    decreases |piece|
  {
    if piece != [] {
      EditFits(Edit1(d, piece[0]), piece[1..]);
    }
  }

  /** A kill, unless it is itself quoted, makes everything typed before it on the line irrelevant. */
  lemma KillForgets(a: seq<Byte>, b: seq<Byte>)
    requires !Edit(BLANK, a).quoted
    ensures Edit(BLANK, a + [KILL] + b) == Edit(BLANK, b)
  {
    EditConcat(BLANK, a + [KILL], b);
    EditConcat(BLANK, a, [KILL]);
    var d := Edit(BLANK, a);
    assert [KILL][1..] == [];
    assert Edit(d, [KILL]) == Edit(Edit1(d, KILL), []);
  }

  /** Typing a plain byte and rubbing it out again changes nothing, exactly when the line has room
      for it: on a full line the byte is refused and the rub-out eats an older one. */
  lemma RuboutUndoes(a: seq<Byte>, x: Byte)
    requires Plain(x) && !Edit(BLANK, a).quoted
    ensures Edit(BLANK, a + [x, RUBOUT]) == Edit(BLANK, a) <==> |Edit(BLANK, a).text| < LIMIT
  {
    var d := Edit(BLANK, a);
    EditFits(BLANK, a);
    EditConcat(BLANK, a, [x, RUBOUT]);
    EditTwo(d, x, RUBOUT);
    if |d.text| < LIMIT {
      assert (d.text + [x])[..|d.text|] == d.text;
    } else {
      assert |d.text[..|d.text| - 1]| != |d.text|;
    }
  }

  // ---------------------------------------------------------------- the driver is this editor

  /** The terminal `t` stands where the draft `d` does. */
  predicate Stands(t: Tty, d: Draft) {
    t.settings == SANE && Bytes(t.line) == d.text && t.literal == d.quoted
  }

  lemma BytesPut(line: seq<Cell>, x: Cell)
    ensures Bytes(Put(line, x)) == Append(Bytes(line), x.byte)
  {
  }

  lemma BytesDrop(line: seq<Cell>)
    ensures line != [] ==> Bytes(line[..|line| - 1]) == Bytes(line)[..|line| - 1]
  {
  }

  lemma {:induction false} BytesWord(line: seq<Cell>)
    ensures Bytes(DropWord(line)) == WholeWords(Bytes(line))
    decreases |line|
  {
    if line != [] {
      BytesDrop(line);
      BytesWord(line[..|line| - 1]);
    }
  }

  lemma BytesEnded(line: seq<Cell>, x: Cell)
    ensures Bytes(Ended(line, x)) == (if |line| < LIMIT then Bytes(line) else Bytes(line)[..|line| - 1]) + [x.byte]
  {
  }

  /** Any byte but an unquoted line end. */
  lemma EditStands(t: Tty, d: Draft, c: Byte)
    requires Stands(t, d) && (d.quoted || !Ends(c))
    ensures Stands(Typed(t, c), Edit1(d, c)) && Typed(t, c).delivered == t.delivered
  {
    hide Bytes, Put, DropWord, WholeWords, Append;
    BytesPut(t.line, Cell(c, t.clock));
    BytesDrop(t.line);
    BytesWord(t.line);
    assert t.line == [] <==> |t.line| == 0;
  }

  lemma EndStands(t: Tty, d: Draft, c: Byte)
    requires Stands(t, d) && !d.quoted && Ends(c)
    ensures Stands(Typed(t, c), BLANK)
    ensures Bytes(Typed(t, c).delivered) == Bytes(t.delivered) + Closed(d.text, c)
  {
    hide Bytes, Ended;
    assert Bytes([]) == [];
    var b: Byte := if c == CR then NL else c;
    BytesConcat(t.delivered, t.line);
    BytesEnded(t.line, Cell(b, t.clock));
    BytesConcat(t.delivered, Ended(t.line, Cell(b, t.clock)));
  }

  lemma {:induction false} PieceStands(t: Tty, d: Draft, piece: seq<Byte>)
    requires Stands(t, d) && FirstEnd(piece, d.quoted) == |piece|
    ensures Stands(TypeAll(t, piece), Edit(d, piece)) && TypeAll(t, piece).delivered == t.delivered
    decreases |piece|
  {
    hide Stands, Typed, Edit1;
    if piece != [] {
      EditStands(t, d, piece[0]);
      QuotedNext(d, piece[0]);
      PieceStands(Typed(t, piece[0]), Edit1(d, piece[0]), piece[1..]);
    }
  }

  lemma QuotedNext(d: Draft, c: Byte)
    requires d.quoted || !Ends(c)
    ensures Edit1(d, c).quoted <==> !d.quoted && c == LITERAL
  {
  }

  lemma {:induction false} TypeConcat(t: Tty, a: seq<Byte>, b: seq<Byte>)
    ensures TypeAll(t, a + b) == TypeAll(TypeAll(t, a), b)
    decreases |a|
  {
    if a == [] {
      assert a + b == b;
    } else {
      assert (a + b)[1..] == a[1..] + b;
      TypeConcat(Typed(t, a[0]), a[1..], b);
    }
  }

  lemma {:induction false} FirstEndPrefix(typed: seq<Byte>, quoted: bool)
    ensures var k := FirstEnd(typed, quoted);
            FirstEnd(typed[..k], quoted) == k && (k < |typed| ==> Ends(typed[k]))
    ensures var k := FirstEnd(typed, quoted); k < |typed| && k == 0 ==> !quoted
    decreases |typed|
  {
    var k := FirstEnd(typed, quoted);
    if k > 0 {
      assert typed[..k][1..] == typed[1..][..k - 1];
      FirstEndPrefix(typed[1..], if quoted then false else typed[0] == LITERAL);
    }
  }

  lemma {:induction false} FirstEndUnquoted(typed: seq<Byte>, d: Draft)
    ensures var k := FirstEnd(typed, d.quoted);
            k < |typed| ==> !Edit(d, typed[..k]).quoted
    decreases |typed|
  {
    var k := FirstEnd(typed, d.quoted);
    if 0 < k < |typed| {
      assert typed[..k][1..] == typed[1..][..k - 1];
      QuotedNext(d, typed[0]);
      FirstEndUnquoted(typed[1..], Edit1(d, typed[0]));
    }
  }

  /** For every typed sequence, from any point between two lines: delivered are exactly the edited
      lines, and what is in the line buffer is the edited rest. */
  lemma {:induction false} DriverIsEditor(t: Tty, typed: seq<Byte>)
    requires Stands(t, BLANK)
    ensures Bytes(TypeAll(t, typed).delivered) == Bytes(t.delivered) + Lines(typed)
    ensures Stands(TypeAll(t, typed), Unfinished(typed))
    decreases |typed|
  {
    hide Stands, Typed, Edit1, Edit, Closed, Bytes, TypeAll, FirstEnd;
    var k := FirstEnd(typed, false);
    FirstEndPrefix(typed, false);
    PieceStands(t, BLANK, typed[..k]);
    assert typed[..|typed|] == typed;
    if k < |typed| {
      FirstEndUnquoted(typed, BLANK);
      var u := TypeAll(t, typed[..k]);
      EndStands(u, Edit(BLANK, typed[..k]), typed[k]);
      assert typed == typed[..k] + [typed[k]] + typed[k + 1..];
      TypeConcat(t, typed[..k] + [typed[k]], typed[k + 1..]);
      TypeConcat(t, typed[..k], [typed[k]]);
      TypeOne(u, typed[k]);
      DriverIsEditor(Typed(u, typed[k]), typed[k + 1..]);
    }
  }

  lemma TypeOne(t: Tty, c: Byte)
    ensures TypeAll(t, [c]) == Typed(t, c)
  {
    assert [c][1..] == [];
    assert TypeAll(t, [c]) == TypeAll(Typed(t, c), []);
  }
}
