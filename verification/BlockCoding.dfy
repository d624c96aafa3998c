/** Whole blocks of coefficients: a predicted first value, then runs of zeros and values, each as a
    Huffman symbol with its magnitude bits (ITU-T T.81, sections F.1.2.1 and F.1.2.2), and the decoder's loop. */
module BlockCoding {

  import opened Basics
  import opened Powers
  import opened EntropyCoding

  // ---------------------------------------------------------------- coding

  predicate Has(t: Table, symbol: Byte)
    requires |t.lengths| == 16 && Off(t, 16) <= |t.elements|
  {
    symbol in t.elements[..Off(t, 16)]
  }

  /** The first place that holds the symbol. */
  function Index(t: Table, symbol: Byte, from: nat): (k: nat)
    requires |t.lengths| == 16 && Off(t, 16) <= |t.elements| && from <= Off(t, 16)
    requires symbol in t.elements[from..Off(t, 16)]
    ensures k < Off(t, 16) && t.elements[k] == symbol
    decreases Off(t, 16) - from
  {
    if t.elements[from] == symbol then from
    else
      assert t.elements[from..Off(t, 16)] == [t.elements[from]] + t.elements[from + 1..Off(t, 16)];
      Index(t, symbol, from + 1)
  }

  function CodeFor(t: Table, symbol: Byte): seq<Bit>
    requires |t.lengths| == 16 && Off(t, 16) <= |t.elements| && Has(t, symbol)
  {
    CodeBits(t, Index(t, symbol, 0))
  }

  lemma CodeForRoundTrip(t: Table, symbol: Byte, rest: seq<Bit>)
    requires WellFormed(t) && Off(t, 16) <= |t.elements| && Has(t, symbol)
    ensures GetCode(t, CodeFor(t, symbol) + rest) == Read(symbol, rest)
  {
    SymbolRoundTrip(t, Index(t, symbol, 0), rest);
  }

  /** How many zeros stand from `l` on. */
  function ZeroRun(c: seq<int>, l: nat): (r: nat)
    requires l <= |c|
    ensures l + r <= |c| && (forall i :: l <= i < l + r ==> c[i] == 0) && (l + r < |c| ==> c[l + r] != 0)
    decreases |c| - l
  {
    if l == |c| || c[l] != 0 then 0 else 1 + ZeroRun(c, l + 1)
  }

  /** The table has the symbols the rest of the block needs. */
  predicate Codable(t: Table, c: seq<int>, l: nat)
    requires |t.lengths| == 16 && Off(t, 16) <= |t.elements| && l <= |c|
    decreases |c| - l
  {
    l == |c| ||
    var r := ZeroRun(c, l);
    if l + r == |c| then Has(t, 0)
    else if r >= 16 then Has(t, 0xF0) && Codable(t, c, l + 16)
    else Category(c[l + r]) <= 15 && Has(t, 16 * r + Category(c[l + r])) && Codable(t, c, l + r + 1)
  }

  function ValueBits(v: int): seq<Bit>
    requires Category(v) <= 30
  {
    MagnitudeRoundTrip(v);
    ToBits(Magnitude(v), Category(v))
  }

  function EncodeRuns(t: Table, c: seq<int>, l: nat): seq<Bit>
    requires |t.lengths| == 16 && Off(t, 16) <= |t.elements| && l <= |c| && Codable(t, c, l)
    decreases |c| - l
  {
    if l == |c| then []
    else
      var r := ZeroRun(c, l);
      if l + r == |c| then CodeFor(t, 0)
      else if r >= 16 then CodeFor(t, 0xF0) + EncodeRuns(t, c, l + 16)
      else CodeFor(t, 16 * r + Category(c[l + r])) + (ValueBits(c[l + r]) + EncodeRuns(t, c, l + r + 1))
  }

  datatype Tables = Tables(dc: Table, ac: Table)

  ghost predicate Usable(ts: Tables) {
    && WellFormed(ts.dc) && Off(ts.dc, 16) <= |ts.dc.elements|
    && WellFormed(ts.ac) && Off(ts.ac, 16) <= |ts.ac.elements|
  }

  /** The block follows one whose first value was `before`. */
  ghost predicate BlockCodable(ts: Tables, c: seq<int>, before: int) {
    && Usable(ts) && |c| == 64
    && -0x8000_0000 <= c[0] < 0x8000_0000
    && Category(c[0] - before) <= 30 && Has(ts.dc, Category(c[0] - before))
    && Codable(ts.ac, c, 1)
  }

  ghost function EncodeBlock(ts: Tables, c: seq<int>, before: int): seq<Bit>
    requires BlockCodable(ts, c, before)
  {
    CodeFor(ts.dc, Category(c[0] - before)) + (ValueBits(c[0] - before) + EncodeRuns(ts.ac, c, 1))
  }

  // ---------------------------------------------------------------- decoding

  datatype Decoded = Decoded(coefs: seq<int>, rest: seq<Bit>)

  function CodeCategory(code: int): nat
    requires code > 0
  {
    if code > 15 then code % 16 else code
  }

  function CodeRun(code: int): nat
    requires code > 0
  {
    if code > 15 then code / 16 else 0
  }

  /** The loop over the coefficients after the first. */
  ghost function DecodeRuns(t: Table, l: nat, coefs: seq<int>, rest: seq<Bit>): (d: Decoded)
    requires Sized(t) && |coefs| == 64
    ensures |d.coefs| == 64
    decreases if l < 64 then 64 - l else 0
  {
    if l >= 64 then Decoded(coefs, rest)
    else
      var r := GetCode(t, rest);
      if r.val <= 0 then Decoded(coefs, r.rest)
      else
        var at := l + CodeRun(r.val);
        var b := TakeN(r.rest, CodeCategory(r.val));
        if at < 64 then DecodeRuns(t, at + 1, coefs[at := Extend(CodeCategory(r.val), b.val)], b.rest)
        else Decoded(coefs, b.rest)
  }

  function Zeros(): seq<int> {
    seq(64, _ => 0)
  }

  ghost function DecodeBlock(ts: Tables, before: int, rest: seq<Bit>): (d: Decoded)
    requires Sized(ts.dc) && Sized(ts.ac)
    ensures |d.coefs| == 64
  {
    var r := GetCode(ts.dc, rest);
    var b := TakeN(r.rest, if r.val < 0 then 0 else r.val);
    DecodeRuns(ts.ac, 1, Zeros()[0 := Wrap32(Extend(r.val, b.val) + before)], b.rest)
  }

  // ---------------------------------------------------------------- the second undoes the first

  lemma ValueRoundTrip(v: int, rest: seq<Bit>)
    requires Category(v) <= 30
    ensures TakeN(ValueBits(v) + rest, Category(v)) == Read(Magnitude(v), rest)
    ensures Extend(Category(v), Magnitude(v)) == v
  {
    hide Category, Magnitude, Extend;
    MagnitudeRoundTrip(v);
    TakesBack(Magnitude(v), Category(v), rest);
  }

  /** The part of the block before `l` is there, the rest is still zero. */
  ghost predicate Partial(coefs: seq<int>, c: seq<int>, l: nat) {
    && |coefs| == 64 && |c| == 64 && l <= 64
    && (forall i :: 0 <= i < l ==> coefs[i] == c[i])
    && (forall i :: l <= i < 64 ==> coefs[i] == 0)
  }

  lemma PartialDone(coefs: seq<int>, c: seq<int>, l: nat)
    requires Partial(coefs, c, l) && forall i :: l <= i < 64 ==> c[i] == 0
    ensures coefs == c
  {
  }

  /** Storing the value that ends a run of zeros. */
  lemma PartialStep(coefs: seq<int>, c: seq<int>, l: nat, at: nat)
    requires Partial(coefs, c, l) && l <= at < 64 && forall i :: l <= i < at ==> c[i] == 0
    ensures Partial(coefs[at := c[at]], c, at + 1)
  {
  }

  lemma {:induction false} RunsRoundTrip(t: Table, c: seq<int>, l: nat, coefs: seq<int>, rest: seq<Bit>)
    requires WellFormed(t) && Off(t, 16) <= |t.elements| && Partial(coefs, c, l) && Codable(t, c, l)
    ensures DecodeRuns(t, l, coefs, EncodeRuns(t, c, l) + rest) == Decoded(c, rest)
    decreases 64 - l
  {
    hide WellFormed, Sized, Off, GetCode, CodeFor, TakeN, Extend, Category, Magnitude, ValueBits, Partial, Has;
    PartialSizes(t, coefs, c, l);
    var stream := EncodeRuns(t, c, l) + rest;
    if l == 64 {
      PartialDone(coefs, c, l);
      assert stream == rest;
    } else {
      var r := ZeroRun(c, l);
      if l + r == 64 {
        CodeForRoundTrip(t, 0, rest);
        PartialDone(coefs, c, l);
      } else if r >= 16 {
        LongRun(t, c, l, coefs, rest);
      } else {
        ShortRun(t, c, l, coefs, rest);
      }
    }
  }

  lemma PartialSizes(t: Table, coefs: seq<int>, c: seq<int>, l: nat)
    requires WellFormed(t) && Partial(coefs, c, l)
    ensures Sized(t) && |t.lengths| == 16 && |coefs| == 64 && |c| == 64 && l <= 64
  {
  }

  /** Sixteen zeros have a symbol of their own, read as fifteen zeros and the value zero. */
  lemma LongRun(t: Table, c: seq<int>, l: nat, coefs: seq<int>, rest: seq<Bit>)
    requires WellFormed(t) && Sized(t) && |t.lengths| == 16 && Off(t, 16) <= |t.elements|
    requires Partial(coefs, c, l) && l < 64 == |c| && |coefs| == 64 && Codable(t, c, l) && 16 <= ZeroRun(c, l) < 64 - l
    ensures DecodeRuns(t, l, coefs, EncodeRuns(t, c, l) + rest) == Decoded(c, rest)
    decreases 64 - l, 0
  {
    hide WellFormed, Sized, Off, GetCode, CodeFor, TakeN, Extend, Category, Magnitude, ValueBits, Partial, Has;
    var more := EncodeRuns(t, c, l + 16) + rest;
    Regroup(CodeFor(t, 0xF0), EncodeRuns(t, c, l + 16), rest);
    CodeForRoundTrip(t, 0xF0, more);
    EmptyValue(more);
    var at := l + 15;
    PartialStep(coefs, c, l, at);
    assert c[at] == 0;
    RunsRoundTrip(t, c, l + 16, coefs[at := c[at]], rest);
    DecodeOne(t, l, coefs, CodeFor(t, 0xF0) + more, 0xF0, more);
  }

  lemma ShortRun(t: Table, c: seq<int>, l: nat, coefs: seq<int>, rest: seq<Bit>)
    requires WellFormed(t) && Sized(t) && |t.lengths| == 16 && Off(t, 16) <= |t.elements|
    requires Partial(coefs, c, l) && l < 64 == |c| && |coefs| == 64 && Codable(t, c, l)
    requires ZeroRun(c, l) < 16 && l + ZeroRun(c, l) < 64
    ensures DecodeRuns(t, l, coefs, EncodeRuns(t, c, l) + rest) == Decoded(c, rest)
    decreases 64 - l, 0
  {
    hide WellFormed, Sized, Off, GetCode, CodeFor, TakeN, Extend, Category, Magnitude, ValueBits, Partial, Has,
        DecodeRuns, EncodeRuns, Codable, ZeroRun;
    CodedShort(t, c, l);
    var r := ZeroRun(c, l);
    var at := l + r;
    var v := c[at];
    var symbol := 16 * r + Category(v);
    var after := EncodeRuns(t, c, at + 1) + rest;
    var more := ValueBits(v) + after;
    Regroup(ValueBits(v), EncodeRuns(t, c, at + 1), rest);
    Regroup(CodeFor(t, symbol), ValueBits(v) + EncodeRuns(t, c, at + 1), rest);
    CodeForRoundTrip(t, symbol, more);
    ValueRoundTrip(v, after);
    CategoryBounds(v);
    SymbolParts(r, Category(v));
    PartialStep(coefs, c, l, at);
    RunsRoundTrip(t, c, at + 1, coefs[at := v], rest);
    DecodeOne(t, l, coefs, CodeFor(t, symbol) + more, symbol, more);
  }

  lemma CodedShort(t: Table, c: seq<int>, l: nat)
    requires |t.lengths| == 16 && Off(t, 16) <= |t.elements| && l < |c| && Codable(t, c, l)
    requires ZeroRun(c, l) < 16 && l + ZeroRun(c, l) < |c|
    ensures var r := ZeroRun(c, l); var v := c[l + r];
            && Category(v) <= 15 && Has(t, 16 * r + Category(v)) && Codable(t, c, l + r + 1)
            && EncodeRuns(t, c, l) == CodeFor(t, 16 * r + Category(v)) + (ValueBits(v) + EncodeRuns(t, c, l + r + 1))
  {
    hide Off, CodeFor, Category, ValueBits, Has;
  }

  lemma SymbolParts(r: nat, s: nat)
    requires r < 16 && 1 <= s <= 15
    ensures 0 < 16 * r + s < 256 && CodeRun(16 * r + s) == r && CodeCategory(16 * r + s) == s
  {
  }

  lemma EmptyValue(rest: seq<Bit>)
    ensures TakeN(rest, 0) == Read(0, rest) && Extend(0, 0) == 0
    ensures CodeRun(0xF0) == 15 && CodeCategory(0xF0) == 0
  {
    EmptyShift();
  }

  /** One turn of the decoder's loop that stores a value. */
  lemma DecodeOne(t: Table, l: nat, coefs: seq<int>, stream: seq<Bit>, code: int, more: seq<Bit>)
    requires Sized(t) && |coefs| == 64 && code > 0 && GetCode(t, stream) == Read(code, more) && l + CodeRun(code) < 64
    ensures var b := TakeN(more, CodeCategory(code));
            DecodeRuns(t, l, coefs, stream)
            == DecodeRuns(t, l + CodeRun(code) + 1, coefs[l + CodeRun(code) := Extend(CodeCategory(code), b.val)],
                b.rest)
  {
    hide Sized, GetCode, TakeN, Extend;
  }

  /** Decoding a coded block gives back its 64 coefficients and leaves exactly what follows. */
  lemma BlockRoundTrip(ts: Tables, c: seq<int>, before: int, rest: seq<Bit>)
    requires BlockCodable(ts, c, before)
    ensures DecodeBlock(ts, before, EncodeBlock(ts, c, before) + rest) == Decoded(c, rest)
  {
    hide WellFormed, Off, GetCode, CodeFor, TakeN, Extend, Category, Magnitude, ValueBits, Has, DecodeRuns, Codable,
        Wrap32;
    WellFormedSized(ts.dc);
    WellFormedSized(ts.ac);
    var v := c[0] - before;
    var runs := EncodeRuns(ts.ac, c, 1);
    var after := runs + rest;
    var more := ValueBits(v) + after;
    Regroup(ValueBits(v), runs, rest);
    Regroup(CodeFor(ts.dc, Category(v)), ValueBits(v) + runs, rest);
    CodeForRoundTrip(ts.dc, Category(v), more);
    ValueRoundTrip(v, after);
    WrapSmall(c[0]);
    RunsRoundTrip(ts.ac, c, 1, Zeros()[0 := c[0]], rest);
  }

  lemma WellFormedSized(t: Table)
    requires WellFormed(t)
    ensures Sized(t) && |t.lengths| == 16
  {
  }

  // ---------------------------------------------------------------- a scan of interleaved blocks

  /** Blocks of the three components take turns; each component has its tables and its prediction. */
  datatype Channels = Channels(tables: seq<Tables>, before: seq<int>, turn: nat)

  /** Enough for the decoder not to run off its tables; the codes need not be well-formed. */
  ghost predicate Readable(ts: Tables) {
    Sized(ts.dc) && Sized(ts.ac)
  }

  ghost predicate Ready(ch: Channels) {
    && |ch.tables| == 3 && |ch.before| == 3 && ch.turn < 3
    && forall i :: 0 <= i < 3 ==> Readable(ch.tables[i])
  }

  function After(ch: Channels, value: int): Channels
    requires ch.turn < |ch.before|
  {
    Channels(ch.tables, ch.before[ch.turn := value], (ch.turn + 1) % 3)
  }

  ghost predicate ScanCodable(ch: Channels, blocks: seq<seq<int>>)
    decreases |blocks|
  {
    Ready(ch) && (blocks == [] ||
      (BlockCodable(ch.tables[ch.turn], blocks[0], ch.before[ch.turn])
       && ScanCodable(After(ch, blocks[0][0]), blocks[1..])))
  }

  ghost function EncodeScan(ch: Channels, blocks: seq<seq<int>>): seq<Bit>
    requires ScanCodable(ch, blocks)
    decreases |blocks|
  {
    if blocks == [] then []
    else
      EncodeBlock(ch.tables[ch.turn], blocks[0], ch.before[ch.turn])
      + EncodeScan(After(ch, blocks[0][0]), blocks[1..])
  }

  datatype Scan = Scan(blocks: seq<seq<int>>, rest: seq<Bit>)

  ghost function DecodeScan(ch: Channels, n: nat, rest: seq<Bit>): Scan
    requires Ready(ch)
    decreases n
  {
    if n == 0 then Scan([], rest)
    else
      var d := DecodeBlock(ch.tables[ch.turn], ch.before[ch.turn], rest);
      var s := DecodeScan(After(ch, d.coefs[0]), n - 1, d.rest);
      Scan([d.coefs] + s.blocks, s.rest)
  }

  lemma {:induction false} ScanRoundTrip(ch: Channels, blocks: seq<seq<int>>, rest: seq<Bit>)
    requires ScanCodable(ch, blocks)
    ensures DecodeScan(ch, |blocks|, EncodeScan(ch, blocks) + rest) == Scan(blocks, rest)
    decreases |blocks|
  {
    hide BlockCodable, EncodeBlock, DecodeBlock, Sized, WellFormed, Usable;
    if blocks == [] {
      assert EncodeScan(ch, blocks) + rest == rest;
    } else {
      var ts, before := ch.tables[ch.turn], ch.before[ch.turn];
      FirstValue(ts, blocks[0], before);
      var later := After(ch, blocks[0][0]);
      var more := EncodeScan(later, blocks[1..]);
      Regroup(EncodeBlock(ts, blocks[0], before), more, rest);
      BlockRoundTrip(ts, blocks[0], before, more + rest);
      ScanRoundTrip(later, blocks[1..], rest);
      assert [blocks[0]] + blocks[1..] == blocks;
    }
  }

  lemma FirstValue(ts: Tables, c: seq<int>, before: int)
    requires BlockCodable(ts, c, before)
    ensures |c| == 64 && Sized(ts.dc) && Sized(ts.ac)
  {
  }

  /** A table whose only code is one zero bit, for the symbol 0. */
  const ONE_CODE: Table := Table([1, 0, 0, 0, 0, 0, 0, 0, 0, 0, 0, 0, 0, 0, 0, 0], [0])

  lemma {:induction false} OneCodeLevels(i: nat)
    requires i <= 16
    ensures Off(ONE_CODE, i) == if i == 0 then 0 else 1
    ensures Start(ONE_CODE, i) <= Pow2(i) && (i == 0 ==> Start(ONE_CODE, i) == 0)
  {
    if i > 0 {
      OneCodeLevels(i - 1);
    }
  }

  lemma OneCodeWellFormed()
    ensures WellFormed(ONE_CODE) && |ONE_CODE.lengths| == 16 && Off(ONE_CODE, 16) == 1
  {
    hide Off, Start, Pow2;
    OneCodeLevels(16);
    forall i | 0 <= i <= 16 ensures Off(ONE_CODE, i) <= 1 {
      OneCodeLevels(i);
    }
    forall i | 0 <= i < 16 ensures Start(ONE_CODE, i) + ONE_CODE.lengths[i] <= Pow2(i + 1) {
      OneCodeLevels(i);
      Twice(i);
    }
  }

  lemma Twice(i: nat)
    ensures Pow2(i + 1) == 2 * Pow2(i) && Pow2(i) >= 1
  {
  }

  lemma {:induction false} ZerosRun(l: nat)
    requires l <= 64
    ensures ZeroRun(Zeros(), l) == 64 - l
    decreases 64 - l
  {
    if l < 64 {
      ZerosRun(l + 1);
    }
  }

  /** Blocks of zeros can be coded with it: the requirements of the round trips can be met. */
  lemma ZerosCodable()
    ensures WellFormed(ONE_CODE) && BlockCodable(Tables(ONE_CODE, ONE_CODE), Zeros(), 0)
  {
    hide Off, Start, WellFormed, ZeroRun;
    OneCodeWellFormed();
    ZerosRun(1);
    assert ONE_CODE.elements[..1] == [0];
    assert Category(0) == 0;
    assert Has(ONE_CODE, 0) && Codable(ONE_CODE, Zeros(), 1);
  }

  /** From coefficients to the stuffed bytes of the file and back, whatever follows in the file. */
  lemma FileRoundTrip(ch: Channels, blocks: seq<seq<int>>, tail: seq<Byte>)
    requires ScanCodable(ch, blocks)
    ensures DecodeScan(ch, |blocks|, StreamBits(Stuff(Pack(EncodeScan(ch, blocks))) + tail)).blocks == blocks
  {
    hide BlockCodable, EncodeScan, DecodeScan, Sized, Stuff, Pack, StreamBits, Padding;
    var bits := EncodeScan(ch, blocks);
    StreamRoundTrip(bits, tail);
    Regroup(bits, Padding(bits), StreamBits(tail));
    ScanRoundTrip(ch, blocks, Padding(bits) + StreamBits(tail));
  }
}
